/** The `/summary` command: payout totals, revenue as paid payouts minus
    expenses, the payout list (recent paid payouts, then pending ones) and
    the expense list, cut to fit an embed field. */
module SummaryCommand {
  import opened Base
  import opened Text
  import opened Money
  import opened Stripe
  import opened RevenueCommand
  import ExpenseCommand

  /** How many payouts `/summary` lists, and how many paid payouts and
      expenses it shows. */
  const SummaryPayoutLimit: nat := 20
  const ShownPaidPayouts: nat := 10
  const ShownExpenses: nat := 10

  /** An embed field value holds at most 1024 characters; a longer expense
      list keeps its first 1020. */
  const FieldLimit: nat := 1024
  const FieldKeep: nat := 1020

  // ---------------------------------------------------------------------
  // The payout list

  /** `<amount> - <arrival date>`. */
  function PaidLine(p: Payout, hostOffsetSeconds: int): string
  {
    FormatCurrency(p.amount) + " - " + FormatDate(p.arrivalDate, hostOffsetSeconds)
  }

  /** `<amount> - Pending`. */
  function PendingLine(p: Payout): string
  {
    FormatCurrency(p.amount) + " - Pending"
  }

  function PaidLines(payouts: seq<Payout>, hostOffsetSeconds: int): (r: seq<string>)
    ensures |r| == |payouts|
    ensures forall i :: 0 <= i < |r| ==> r[i] == PaidLine(payouts[i], hostOffsetSeconds)
  {
    seq(|payouts|, i requires 0 <= i < |payouts| => PaidLine(payouts[i], hostOffsetSeconds))
  }

  function PendingLines(payouts: seq<Payout>): (r: seq<string>)
    ensures |r| == |payouts|
    ensures forall i :: 0 <= i < |r| ==> r[i] == PendingLine(payouts[i])
  {
    seq(|payouts|, i requires 0 <= i < |payouts| => PendingLine(payouts[i]))
  }

  /** `payoutList` as `handleSummary` builds it: the first 10 paid payouts
      joined by newlines, then, when there are pending payouts, their lines
      after a newline (or alone when the paid part is empty). */
  function PayoutList(paid: seq<Payout>, pending: seq<Payout>, hostOffsetSeconds: int): string
  {
    var paidText := Join(PaidLines(Take(paid, ShownPaidPayouts), hostOffsetSeconds), "\n");
    if |pending| > 0 then
      var pendingText := Join(PendingLines(pending), "\n");
      if paidText != "" then paidText + "\n" + pendingText else pendingText
    else paidText
  }

  /** The payout list is one line per shown payout: at most 10 paid ones,
      then every pending one. */
  lemma PayoutListLines(paid: seq<Payout>, pending: seq<Payout>, hostOffsetSeconds: int)
    ensures var lines := PaidLines(Take(paid, ShownPaidPayouts), hostOffsetSeconds) + PendingLines(pending);
            && PayoutList(paid, pending, hostOffsetSeconds) == Join(lines, "\n")
            && |lines| == Min(|paid|, ShownPaidPayouts) + |pending|
  {
    var paidLines := PaidLines(Take(paid, ShownPaidPayouts), hostOffsetSeconds);
    var pendingLines := PendingLines(pending);
    forall i | 0 <= i < |paidLines|
      ensures |paidLines[i]| > 0
    {
      assert paidLines[i][0] == '$';
    }
    JoinNonEmpty(paidLines, "\n");
    if |pending| == 0 {
      assert paidLines + pendingLines == paidLines;
    } else if |paidLines| == 0 {
      assert paidLines + pendingLines == pendingLines;
    } else {
      JoinConcat(paidLines, pendingLines, "\n");
    }
  }

  /** The payouts field: the list, or `No payouts` when it is empty. */
  function PayoutField(list: string): (r: string)
    ensures r != ""
    ensures list != "" ==> r == list
    ensures list == "" ==> r == "No payouts"
  {
    if list == "" then "No payouts" else list
  }

  // ---------------------------------------------------------------------
  // The expense list

  /** `-$<amount>` and, for a categorised expense, ` (<category>)`. */
  function ExpenseLine(e: ExpenseCommand.Expense): string
  {
    "-$" + Fixed2(e.amountCents) + (if e.category != "" then " (" + e.category + ")" else "")
  }

  function ExpenseLines(expenses: seq<ExpenseCommand.Expense>): (r: seq<string>)
    ensures |r| == |expenses|
    ensures forall i :: 0 <= i < |r| ==> r[i] == ExpenseLine(expenses[i])
  {
    seq(|expenses|, i requires 0 <= i < |expenses| => ExpenseLine(expenses[i]))
  }

  /** `expenseList`: the first 10 expense lines joined by newlines, or
      `No expenses`. */
  function ExpenseList(recent: seq<ExpenseCommand.Expense>): (r: string)
    ensures |recent| == 0 <==> r == "No expenses"
  {
    if |recent| > 0 then
      var lines := ExpenseLines(Take(recent, ShownExpenses));
      assert lines[0][0] == '-';
      var text := Join(lines, "\n");
      assert text[0] == '-' by {
        if |lines| > 1 {
          assert text == lines[0] + "\n" + Join(lines[1..], "\n");
        }
      }
      text
    else "No expenses"
  }

  /** The expenses field value: the list, cut to 1020 characters and an
      ellipsis when it is longer than the field allows. */
  function ExpenseField(list: string): (r: string)
    ensures |r| <= FieldLimit
    ensures |list| <= FieldLimit ==> r == list
    ensures |list| > FieldLimit ==> r == list[..FieldKeep] + "..."
  {
    Ellipsize(list, FieldLimit, FieldKeep)
  }

  lemma NoNewlineInDigits(s: string)
    requires AllDigits(s)
    ensures '\n' !in s
  {
  }

  /** Amounts are rendered without line breaks. */
  lemma NoNewlineInFixed2(cents: int)
    ensures '\n' !in Fixed2(cents)
  {
    var a: nat := if cents < 0 then -cents else cents;
    NoNewlineInDigits(NatToString(a / 100));
    NoNewlineInDigits(TwoDigits(a % 100));
  }

  /** An expense line has a line break only if its category does. */
  lemma NoNewlineInExpenseLine(e: ExpenseCommand.Expense)
    requires '\n' !in e.category
    ensures '\n' !in ExpenseLine(e)
  {
    NoNewlineInFixed2(e.amountCents);
  }

  /** With categories free of line breaks, the expense list splits back
      into one line per shown expense, at most 10. */
  lemma ExpenseListLines(recent: seq<ExpenseCommand.Expense>)
    requires |recent| > 0
    requires forall i :: 0 <= i < |recent| ==> '\n' !in recent[i].category
    ensures var lines := Split(ExpenseList(recent), '\n');
            && lines == ExpenseLines(Take(recent, ShownExpenses))
            && |lines| == Min(|recent|, ShownExpenses)
  {
    var shown := Take(recent, ShownExpenses);
    var lines := ExpenseLines(shown);
    forall i | 0 <= i < |lines|
      ensures '\n' !in lines[i]
    {
      assert shown[i] == recent[i];
      NoNewlineInExpenseLine(shown[i]);
    }
    SplitJoin(lines, '\n');
  }

  // ---------------------------------------------------------------------
  // handleSummary

  datatype Summary = Summary(
    totalPaidPayouts: int,
    totalPendingPayouts: int,
    totalPayouts: int,
    revenue: real,
    payoutField: string,
    totalPayoutsText: string,
    expenseField: string,
    revenueText: string)

  /** The figures of the summary embed from the paid and pending payout
      totals, the expense total and the two lists. */
  function SummaryOf(paidTotal: int, pendingTotal: int, expenseCents: int,
                     payoutList: string, expenseList: string): (r: Summary)
    ensures r.totalPaidPayouts == paidTotal && r.totalPendingPayouts == pendingTotal
    ensures r.totalPayouts == paidTotal + pendingTotal
    ensures r.revenue == Dollars(paidTotal) - Dollars(expenseCents) == Dollars(paidTotal - expenseCents)
    ensures r.revenueText == FormatCurrency(paidTotal - expenseCents)
    ensures r.totalPayoutsText == FormatCurrency(paidTotal + pendingTotal)
    ensures r.payoutField != "" && (payoutList != "" ==> r.payoutField == payoutList)
    ensures |r.expenseField| <= FieldLimit && (|expenseList| <= FieldLimit ==> r.expenseField == expenseList)
  {
    var revenue := Dollars(paidTotal) - Dollars(expenseCents);
    DollarsOfDifference(paidTotal, expenseCents);
    Summary(
      paidTotal, pendingTotal, paidTotal + pendingTotal, revenue,
      PayoutField(payoutList),
      FormatCurrency(paidTotal + pendingTotal),
      ExpenseField(expenseList),
      FormatCurrency(paidTotal - expenseCents))
  }

  /** `handleSummary`: paid payouts among the newest 20, every listed
      pending payout, and the 10 most recent expenses. */
  function HandleSummary(listing: seq<Payout>, expenseCents: int,
                         recent: seq<ExpenseCommand.Expense>, hostOffsetSeconds: int): (r: Summary)
    ensures r.totalPaidPayouts == TotalPaidPayouts(Take(listing, SummaryPayoutLimit))
    ensures r.totalPendingPayouts == TotalAmount(GetPendingPayouts(listing))
  {
    var paid := Filter(GetPayouts(listing, SummaryPayoutLimit), IsPaid);
    var pending := GetPendingPayouts(listing);
    var payoutList := PayoutList(paid, pending, hostOffsetSeconds);
    var expenseList := ExpenseList(recent);
    SummaryOf(TotalAmount(paid), TotalAmount(pending), expenseCents, payoutList, expenseList)
  }

  /** `/revenue` and `/summary` disagree by design: when the account has at
      most 20 payouts, the true total exceeds the summary's revenue by
      exactly the available and pending balance and the pending payouts. */
  lemma RevenueExceedsSummary(balance: Balance, listing: seq<Payout>, expenseCents: int,
                              recent: seq<ExpenseCommand.Expense>, hostOffsetSeconds: int)
    requires |listing| <= SummaryPayoutLimit
    ensures HandleRevenue(balance, listing, expenseCents).trueTotal
              - HandleSummary(listing, expenseCents, recent, hostOffsetSeconds).revenue
            == Dollars(balance.available + balance.pending + TotalAmount(GetPendingPayouts(listing)))
  {
    var full := HandleRevenue(balance, listing, expenseCents);
    var brief := HandleSummary(listing, expenseCents, recent, hostOffsetSeconds);
    assert Take(listing, RevenuePayoutLimit) == listing == Take(listing, SummaryPayoutLimit);
    var paidTotal := TotalPaidPayouts(listing);
    var pendingTotal := TotalAmount(GetPendingPayouts(listing));
    assert full.totalPaidPayouts == paidTotal && brief.totalPaidPayouts == paidTotal;
    assert full.totalRevenue == Dollars(balance.available + balance.pending + paidTotal + pendingTotal);
  }
}

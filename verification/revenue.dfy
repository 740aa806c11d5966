/** The `/revenue` command: payout totals folded by status, total revenue as
    every balance and payout added up, the true total after expenses, and
    the profit marker. Amounts are cents; dollars are exact rationals. */
module RevenueCommand {
  import opened Base
  import opened Money
  import opened Stripe

  /** How many payouts `/revenue` lists, and how many pending payouts any
      command lists. */
  const RevenuePayoutLimit: nat := 100
  const PendingPayoutLimit: nat := 100

  predicate IsPaid(p: Payout)
  {
    p.status == "paid"
  }

  predicate IsPending(p: Payout)
  {
    p.status == "pending"
  }

  function AmountOf(p: Payout): int
  {
    p.amount
  }

  /** `reduce((sum, p) => sum + p.amount, 0)`. */
  function TotalAmount(payouts: seq<Payout>): int
  {
    SumOf(payouts, AmountOf)
  }

  /** `getPayouts(limit)`: the newest `limit` payouts of the account. */
  function GetPayouts(listing: seq<Payout>, limit: nat): seq<Payout>
  {
    Take(listing, limit)
  }

  /** `getPendingPayouts`: the newest 100 payouts the server reports as
      pending, newest first; all of them when there are at most 100. */
  function GetPendingPayouts(listing: seq<Payout>): (r: seq<Payout>)
    ensures |r| <= PendingPayoutLimit
    ensures forall i :: 0 <= i < |r| ==> IsPending(r[i]) && r[i] in listing
    ensures |r| == Min(|Filter(listing, IsPending)|, PendingPayoutLimit)
    ensures r == Filter(listing, IsPending)[..|r|]
    ensures |Filter(listing, IsPending)| <= PendingPayoutLimit ==>
              forall i :: 0 <= i < |listing| && IsPending(listing[i]) ==> listing[i] in r
  {
    Take(Filter(listing, IsPending), PendingPayoutLimit)
  }

  /** The sum over the payouts whose status is `paid`. */
  function TotalPaidPayouts(payouts: seq<Payout>): int
  {
    TotalAmount(Filter(payouts, IsPaid))
  }

  /** A payout adds its amount to the paid total exactly when it is paid,
      wherever it sits in the list. */
  lemma PaidContribution(before: seq<Payout>, p: Payout, after: seq<Payout>)
    ensures TotalPaidPayouts(before + [p] + after)
              == TotalPaidPayouts(before + after) + (if IsPaid(p) then p.amount else 0)
  {
    FilterConcat(before + [p], after, IsPaid);
    FilterConcat(before, [p], IsPaid);
    FilterConcat(before, after, IsPaid);
    var fb := Filter(before, IsPaid);
    var fp := Filter([p], IsPaid);
    var fa := Filter(after, IsPaid);
    assert Filter([p], IsPaid) == (if IsPaid(p) then [p] else []) + Filter([p][1..], IsPaid);
    assert [p][1..] == [];
    SumOfConcat(fb + fp, fa, AmountOf);
    SumOfConcat(fb, fp, AmountOf);
    SumOfConcat(fb, fa, AmountOf);
    assert SumOf(fp, AmountOf) == (if IsPaid(p) then p.amount else 0) by {
      if IsPaid(p) {
        assert fp[1..] == [];
      }
    }
  }

  /** Every listed pending payout adds its amount to the pending total. */
  lemma PendingContribution(before: seq<Payout>, p: Payout, after: seq<Payout>)
    ensures TotalAmount(before + [p] + after) == TotalAmount(before + after) + p.amount
  {
    SumOfConcat(before + [p], after, AmountOf);
    SumOfConcat(before, [p], AmountOf);
    SumOfConcat(before, after, AmountOf);
    assert [p][1..] == [];
  }

  /** No payout adds to both totals of `/revenue`: the pending list
      contributes nothing to a paid total, and none of its payouts is among
      the paid payouts counted from the newest 100. */
  lemma PendingNeverPaid(listing: seq<Payout>)
    ensures TotalPaidPayouts(GetPendingPayouts(listing)) == 0
    ensures forall p :: p in GetPendingPayouts(listing) ==> p !in Filter(GetPayouts(listing, RevenuePayoutLimit), IsPaid)
  {
    var pending := GetPendingPayouts(listing);
    FilterNone(pending, IsPaid);
  }

  datatype RevenueReport = RevenueReport(
    revenueCents: int,
    totalPaidPayouts: int,
    totalPendingPayouts: int,
    totalRevenue: real,
    trueTotal: real,
    totalRevenueText: string,
    trueTotalText: string,
    profitMarker: string)

  /** Cents as dollars. */
  function Dollars(cents: int): real
  {
    cents as real / 100.0
  }

  lemma DollarsOfDifference(a: int, b: int)
    ensures Dollars(a - b) == Dollars(a) - Dollars(b)
  {
  }

  /** The figures `handleRevenue` shows, from the payout totals, the
      balance and the expense total. */
  function Report(balance: Balance, paidTotal: int, pendingTotal: int, expenseCents: int): (r: RevenueReport)
    ensures r.totalPaidPayouts == paidTotal && r.totalPendingPayouts == pendingTotal
    ensures r.revenueCents == balance.available + balance.pending + paidTotal + pendingTotal
    ensures r.totalRevenue * 100.0 == r.revenueCents as real
    ensures r.trueTotal == r.totalRevenue - Dollars(expenseCents) == Dollars(r.revenueCents - expenseCents)
    ensures r.profitMarker == "✅" || r.profitMarker == "❌"
    ensures r.profitMarker == "✅" <==> r.trueTotal >= 0.0
    ensures r.totalRevenueText == FormatCurrency(r.revenueCents)
    ensures r.trueTotalText == FormatCurrency(r.revenueCents - expenseCents)
  {
    var cents := balance.available + balance.pending + paidTotal + pendingTotal;
    var totalRevenue := Dollars(cents);
    var trueTotal := totalRevenue - Dollars(expenseCents);
    DollarsOfDifference(cents, expenseCents);
    RevenueReport(
      cents, paidTotal, pendingTotal, totalRevenue, trueTotal,
      FormatCurrency(cents), FormatCurrency(cents - expenseCents),
      if trueTotal >= 0.0 then "✅" else "❌")
  }

  /** `handleRevenue`: paid payouts among the newest 100 and all listed
      pending payouts. */
  function HandleRevenue(balance: Balance, listing: seq<Payout>, expenseCents: int): (r: RevenueReport)
    ensures r.totalPaidPayouts == TotalPaidPayouts(Take(listing, RevenuePayoutLimit))
    ensures r.totalPendingPayouts == TotalAmount(GetPendingPayouts(listing))
  {
    var paidTotal := TotalPaidPayouts(GetPayouts(listing, RevenuePayoutLimit));
    var pendingTotal := TotalAmount(GetPendingPayouts(listing));
    Report(balance, paidTotal, pendingTotal, expenseCents)
  }

  /** The profit marker is a tick exactly when the cents taken in cover the
      expenses. */
  lemma ProfitMarkerInCents(balance: Balance, paidTotal: int, pendingTotal: int, expenseCents: int)
    ensures var r := Report(balance, paidTotal, pendingTotal, expenseCents);
            (r.profitMarker == "✅" <==> r.revenueCents >= expenseCents)
  {
  }
}

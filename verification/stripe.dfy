/** The payment-processor side of the bot: the records it reads, the
    "today" window, the daily aggregation of `getTodayStats`, the currency
    rendering and the balance total. */
module Stripe {
  import opened Base
  import opened Text
  import opened Money
  import opened Calendar
  import opened Pagination

  // ---------------------------------------------------------------------
  // Records

  /** A field that is absent, holds an id, or holds an expanded object
      carrying an id. */
  datatype Ref = Absent | ById(id: string) | Expanded(id: string)

  /** The id a reference yields, `""` when it is absent (a falsy id). */
  function RefId(r: Ref): string
  {
    match r
    case Absent => ""
    case ById(id) => id
    case Expanded(id) => id
  }

  /** The fields of a PaymentIntent the aggregation reads. A `null`
      `receipt_email` is modelled as `""`; both are falsy. */
  datatype PaymentIntent = PaymentIntent(
    id: string, status: string, created: int, amount: int, amountReceived: int,
    customer: Ref, receiptEmail: string, latestCharge: Ref)

  /** The fields of a Charge the aggregation reads; a missing
      `billing_details.email` is modelled as `""`. */
  datatype Charge = Charge(
    id: string, status: string, created: int, paid: bool, amount: int,
    customer: Ref, billingEmail: string)

  datatype Payout = Payout(id: string, amount: int, status: string, arrivalDate: int)

  datatype TodayStats = TodayStats(grossVolume: int, customers: nat, payments: nat)

  // ---------------------------------------------------------------------
  // The window of "today"

  /** Start and end, in whole epoch seconds, of the host's local day. */
  datatype Window = Window(start: int, end: int)

  /** Local midnight and local 23:59:59.999 of the day holding `nowMs`, on a
      host whose local time is UTC plus `hostOffsetSeconds`, floored to
      seconds. */
  function DayWindow(nowMs: int, hostOffsetSeconds: int): Window
  {
    var offsetMs := hostOffsetSeconds * MsPerSecond;
    var midnightMs := DayOf(nowMs + offsetMs) * MsPerDay - offsetMs;
    Window(midnightMs / MsPerSecond, (midnightMs + MsPerDay - 1) / MsPerSecond)
  }

  /** The window is 86 399 seconds long and holds the current second. */
  lemma WindowShape(nowMs: int, hostOffsetSeconds: int)
    ensures var w := DayWindow(nowMs, hostOffsetSeconds);
            && w.end - w.start == 86399
            && w.start <= nowMs / MsPerSecond <= w.end
  {
    var offsetMs := hostOffsetSeconds * MsPerSecond;
    var day := DayOf(nowMs + offsetMs);
    var midnightMs := day * MsPerDay - offsetMs;
    assert midnightMs == (day * 86400 - hostOffsetSeconds) * MsPerSecond;
    assert midnightMs <= nowMs < midnightMs + MsPerDay;
  }

  /** A creation second falls in the window exactly when it lies on the same
      local day as now. */
  lemma WindowIsLocalDay(nowMs: int, hostOffsetSeconds: int, created: int)
    ensures var w := DayWindow(nowMs, hostOffsetSeconds);
            (w.start <= created <= w.end
             <==> DayOf((created + hostOffsetSeconds) * MsPerSecond) == DayOf(nowMs + hostOffsetSeconds * MsPerSecond))
  {
    var day := DayOf(nowMs + hostOffsetSeconds * MsPerSecond);
    var w := DayWindow(nowMs, hostOffsetSeconds);
    assert w.start == day * 86400 - hostOffsetSeconds;
    assert w.end == day * 86400 - hostOffsetSeconds + 86399;
  }

  predicate IntentInWindow(w: Window, pi: PaymentIntent)
  {
    w.start <= pi.created <= w.end
  }

  predicate ChargeInWindow(w: Window, c: Charge)
  {
    w.start <= c.created <= w.end
  }

  // ---------------------------------------------------------------------
  // Filters and de-duplication

  predicate IntentSucceeded(pi: PaymentIntent)
  {
    pi.status == "succeeded"
  }

  predicate ChargeSucceeded(c: Charge)
  {
    c.status == "succeeded" && c.paid
  }

  function SuccessfulIntents(pis: seq<PaymentIntent>): seq<PaymentIntent>
  {
    Filter(pis, IntentSucceeded)
  }

  function SuccessfulCharges(chs: seq<Charge>): seq<Charge>
  {
    Filter(chs, ChargeSucceeded)
  }

  /** The non-empty `latest_charge` ids of the given intents. */
  function LinkedChargeIds(pis: seq<PaymentIntent>): (r: set<string>)
    ensures "" !in r
    ensures forall i :: 0 <= i < |pis| && RefId(pis[i].latestCharge) != "" ==> RefId(pis[i].latestCharge) in r
  {
    if |pis| == 0 then {}
    else
      var id := RefId(pis[0].latestCharge);
      (if id != "" then {id} else {}) + LinkedChargeIds(pis[1..])
  }

  /** Every id of the set comes from some intent. */
  lemma {:induction false} LinkedChargeIdsFromIntents(pis: seq<PaymentIntent>, id: string)
    requires id in LinkedChargeIds(pis)
    ensures exists i :: 0 <= i < |pis| && RefId(pis[i].latestCharge) == id
  {
    if RefId(pis[0].latestCharge) != id {
      LinkedChargeIdsFromIntents(pis[1..], id);
      var i :| 0 <= i < |pis| - 1 && RefId(pis[1..][i].latestCharge) == id;
      assert pis[1..][i] == pis[i + 1];
    }
  }

  /** Successful charges not settled by any successful intent. */
  function Standalone(pis: seq<PaymentIntent>, chs: seq<Charge>): seq<Charge>
  {
    var linked := LinkedChargeIds(SuccessfulIntents(pis));
    Filter(SuccessfulCharges(chs), (c: Charge) => c.id !in linked)
  }

  /** A charge is standalone exactly when it succeeded, was paid, and no
      successful intent names it as its latest charge. */
  lemma StandaloneMembers(pis: seq<PaymentIntent>, chs: seq<Charge>, c: Charge)
    ensures (c in Standalone(pis, chs)
             <==> c in chs && ChargeSucceeded(c)
                  && forall i :: 0 <= i < |pis| && IntentSucceeded(pis[i]) ==> RefId(pis[i].latestCharge) != c.id || c.id == "")
  {
    var succ := SuccessfulIntents(pis);
    var linked := LinkedChargeIds(succ);
    if c in Standalone(pis, chs) {
      forall i | 0 <= i < |pis| && IntentSucceeded(pis[i]) && RefId(pis[i].latestCharge) == c.id
        ensures c.id == ""
      {
        assert pis[i] in succ;
      }
    }
    if c in chs && ChargeSucceeded(c) && c.id !in linked {
      var k :| 0 <= k < |chs| && chs[k] == c;
      assert c in SuccessfulCharges(chs);
    }
    if c.id in linked {
      LinkedChargeIdsFromIntents(succ, c.id);
      var j :| 0 <= j < |succ| && RefId(succ[j].latestCharge) == c.id;
      assert succ[j] in pis;
    }
  }

  /** De-duplicating the standalone charges again, against no intents,
      changes nothing. */
  lemma StandaloneIdempotent(pis: seq<PaymentIntent>, chs: seq<Charge>)
    ensures Standalone([], Standalone(pis, chs)) == Standalone(pis, chs)
  {
    var s := Standalone(pis, chs);
    assert SuccessfulIntents([]) == [];
    FilterKeepsAll(s, ChargeSucceeded);
    FilterKeepsAll(s, (c: Charge) => c.id !in LinkedChargeIds([]));
  }

  // ---------------------------------------------------------------------
  // Volume, customers and payments

  /** `amount_received || amount || 0`. */
  function IntentVolume(pi: PaymentIntent): (r: int)
    ensures pi.amountReceived != 0 ==> r == pi.amountReceived
    ensures pi.amountReceived == 0 ==> r == pi.amount
  {
    if pi.amountReceived != 0 then pi.amountReceived
    else if pi.amount != 0 then pi.amount
    else 0
  }

  function ChargeVolume(c: Charge): int
  {
    c.amount
  }

  function GrossVolume(pis: seq<PaymentIntent>, chs: seq<Charge>): int
  {
    SumOf(SuccessfulIntents(pis), IntentVolume) + SumOf(Standalone(pis, chs), ChargeVolume)
  }

  /** Every successful charge is counted exactly once: either in the gross
      volume as a standalone charge, or through the intent that settled it. */
  lemma GrossVolumeCountsChargesOnce(pis: seq<PaymentIntent>, chs: seq<Charge>)
    ensures var linked := LinkedChargeIds(SuccessfulIntents(pis));
            GrossVolume(pis, chs) + SumOf(Filter(SuccessfulCharges(chs), (c: Charge) => c.id in linked), ChargeVolume)
              == SumOf(SuccessfulIntents(pis), IntentVolume) + SumOf(SuccessfulCharges(chs), ChargeVolume)
  {
    var linked := LinkedChargeIds(SuccessfulIntents(pis));
    SumOfPartition(SuccessfulCharges(chs), ChargeVolume, (c: Charge) => c.id !in linked, (c: Charge) => c.id in linked);
  }

  /** The key a record contributes to the customer set: its customer id when
      it has one, else `email:` and its lower-cased, trimmed email when that
      is not blank, else none. */
  function CustomerKey(customer: Ref, email: string): (r: Option<string>)
    ensures r.Some? ==> r.value != ""
    ensures RefId(customer) != "" ==> r == Some(RefId(customer))
    ensures RefId(customer) == "" ==> (r.Some? <==> !AllWhitespace(email))
    ensures RefId(customer) == "" && r.Some? ==> r.value == "email:" + Trim(ToLower(email))
  {
    var id := RefId(customer);
    if id != "" then Some(id)
    else if email != "" then
      var normalised := Trim(ToLower(email));
      AllWhitespaceToLower(email);
      if normalised != "" then Some("email:" + normalised) else None
    else None
  }

  /** Two records without a customer id, both with a key, share their key
      exactly when their emails agree once lower-cased and trimmed: distinct
      addresses are distinct customers. */
  lemma EmailKeysSeparate(c1: Ref, e1: string, c2: Ref, e2: string)
    requires RefId(c1) == "" && RefId(c2) == ""
    requires CustomerKey(c1, e1).Some? && CustomerKey(c2, e2).Some?
    ensures CustomerKey(c1, e1) == CustomerKey(c2, e2) <==> Trim(ToLower(e1)) == Trim(ToLower(e2))
  {
    var k1 := CustomerKey(c1, e1).value;
    var k2 := CustomerKey(c2, e2).value;
    if k1 == k2 {
      assert k1[6..] == Trim(ToLower(e1)) && k2[6..] == Trim(ToLower(e2));
    }
  }

  /** Emails that differ only in letter case give the same key. */
  lemma EmailKeyIgnoresCase(customer: Ref, email: string)
    ensures CustomerKey(customer, ToLower(email)) == CustomerKey(customer, email)
  {
    ToLowerIdempotent(email);
  }

  /** Whitespace around an email does not change its key. */
  lemma EmailKeyIgnoresPadding(customer: Ref, email: string)
    ensures CustomerKey(customer, Trim(email)) == CustomerKey(customer, email)
  {
    if RefId(customer) == "" {
      TrimToLowerCommute(email);
      TrimToLowerCommute(Trim(email));
      TrimIdempotent(email);
      assert Trim(ToLower(Trim(email))) == Trim(ToLower(email));
    }
  }

  function IntentKey(pi: PaymentIntent): Option<string>
  {
    CustomerKey(pi.customer, pi.receiptEmail)
  }

  function ChargeKey(c: Charge): Option<string>
  {
    CustomerKey(c.customer, c.billingEmail)
  }

  /** The distinct keys present. */
  function KeySet(keys: seq<Option<string>>): (r: set<string>)
    ensures |r| <= |keys|
    ensures forall i :: 0 <= i < |keys| && keys[i].Some? ==> keys[i].value in r
    ensures forall k :: k in r ==> Some(k) in keys
  {
    if |keys| == 0 then {}
    else
      var rest := KeySet(keys[1..]);
      match keys[0]
      case Some(k) => {k} + rest
      case None => rest
  }

  function CustomerKeys(pis: seq<PaymentIntent>, chs: seq<Charge>): seq<Option<string>>
  {
    MapSeq(SuccessfulIntents(pis), IntentKey) + MapSeq(Standalone(pis, chs), ChargeKey)
  }

  /** The result of `getTodayStats` for the records of the window. */
  function Aggregate(pis: seq<PaymentIntent>, chs: seq<Charge>): (r: TodayStats)
    ensures r.payments == |SuccessfulIntents(pis)| + |Standalone(pis, chs)|
    ensures r.customers <= r.payments
  {
    TodayStats(
      GrossVolume(pis, chs),
      |KeySet(CustomerKeys(pis, chs))|,
      |SuccessfulIntents(pis)| + |Standalone(pis, chs)|)
  }

  /** With no negative amounts the gross volume is not negative. */
  lemma GrossVolumeNonNegative(pis: seq<PaymentIntent>, chs: seq<Charge>)
    requires forall i :: 0 <= i < |pis| ==> pis[i].amount >= 0 && pis[i].amountReceived >= 0
    requires forall i :: 0 <= i < |chs| ==> chs[i].amount >= 0
    ensures GrossVolume(pis, chs) >= 0
  {
    SumOfNonNegative(SuccessfulIntents(pis), IntentVolume);
    SumOfNonNegative(Standalone(pis, chs), ChargeVolume);
  }

  // ---------------------------------------------------------------------
  // The whole of getTodayStats

  /** `getTodayStats` against a processor whose two list endpoints serve
      `intents` and `charges` (each in listing order, ids unique and
      non-empty): it pages through the records created inside the window of
      today and aggregates them. */
  method GetTodayStats(nowMs: int, hostOffsetSeconds: int, intents: seq<PaymentIntent>, charges: seq<Charge>)
    returns (stats: TodayStats)
    requires WellKeyed(Filter(intents, pi => IntentInWindow(DayWindow(nowMs, hostOffsetSeconds), pi)), (pi: PaymentIntent) => pi.id)
    requires WellKeyed(Filter(charges, c => ChargeInWindow(DayWindow(nowMs, hostOffsetSeconds), c)), (c: Charge) => c.id)
    ensures var w := DayWindow(nowMs, hostOffsetSeconds);
            stats == Aggregate(Filter(intents, pi => IntentInWindow(w, pi)), Filter(charges, c => ChargeInWindow(w, c)))
  {
    var w := DayWindow(nowMs, hostOffsetSeconds);
    var allIntents, intentPages, intentRequests := CollectAll(Filter(intents, pi => IntentInWindow(w, pi)), (pi: PaymentIntent) => pi.id);
    var allCharges, chargePages, chargeRequests := CollectAll(Filter(charges, c => ChargeInWindow(w, c)), (c: Charge) => c.id);
    stats := Aggregate(allIntents, allCharges);
  }

  // ---------------------------------------------------------------------
  // Currency, dates and balance

  /** `formatCurrency`: `$`, then the cents as units with two decimals. */
  function FormatCurrency(cents: int): string
  {
    "$" + Fixed2(cents)
  }

  /** The rendering is read back by dropping the `$` and reading the
      two-decimal amount; a negative amount's sign comes after the `$`. */
  lemma FormatCurrencyRoundTrip(cents: int)
    ensures var s := FormatCurrency(cents);
            |s| >= 2 && s[0] == '$' && ParseFixed2(s[1..]) == Some(cents) && (s[1] == '-' <==> cents < 0)
  {
    var s := FormatCurrency(cents);
    assert s[1..] == Fixed2(cents);
    Fixed2RoundTrip(cents);
  }

  /** The instant whose UTC fields are the host's local fields of a
      timestamp in seconds. */
  function LocalInstant(timestamp: int, hostOffsetSeconds: int): int
  {
    (timestamp + hostOffsetSeconds) * MsPerSecond
  }

  /** Short month name and day of month, as `formatDate` shows a date. */
  function MonthDayLabel(date: Date): string
    requires ValidDate(date)
  {
    MonthName(date.month) + " " + NatToString(date.day)
  }

  /** `formatDate`: the label of the host's local calendar date of a
      timestamp in seconds. */
  function FormatDate(timestamp: int, hostOffsetSeconds: int): string
  {
    MonthDayLabel(UtcDate(LocalInstant(timestamp, hostOffsetSeconds)))
  }

  /** Any timestamp on a local calendar day renders as that day. */
  lemma FormatDateOfDay(date: Date, timestamp: int, hostOffsetSeconds: int)
    requires ValidDate(date)
    requires var z := DaysFromCivil(date.year, date.month, date.day);
             z * 86400 <= timestamp + hostOffsetSeconds < z * 86400 + 86400
    ensures FormatDate(timestamp, hostOffsetSeconds) == MonthDayLabel(date)
  {
    SecondInDay(DaysFromCivil(date.year, date.month, date.day), timestamp + hostOffsetSeconds);
    UtcDateOfInstant(date, LocalInstant(timestamp, hostOffsetSeconds));
  }

  datatype Balance = Balance(available: int, pending: int, total: int)

  /** The amount of the first entry of a balance list, 0 when it is empty. */
  function FirstAmount(amounts: seq<int>): int
  {
    if |amounts| == 0 then 0 else amounts[0]
  }

  /** `getBalance`: the first available and the first pending amount, each
      0 when missing, and their sum. */
  function GetBalance(available: seq<int>, pending: seq<int>): (r: Balance)
    ensures r.total == r.available + r.pending
    ensures |available| == 0 ==> r.available == 0
    ensures |pending| == 0 ==> r.pending == 0
    ensures |available| > 0 ==> r.available == available[0]
    ensures |pending| > 0 ==> r.pending == pending[0]
  {
    Balance(FirstAmount(available), FirstAmount(pending), FirstAmount(available) + FirstAmount(pending))
  }
}

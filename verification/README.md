# expensesbot core, in Dafny

This project models the pure logic behind the finance commands of a Discord
bot that reports a Stripe account and tracks expenses in Postgres. The
modelled parts are:

- `getTodayStats` (`src/stripe.ts`). It finds the window of the host's local
  "today" and pages through PaymentIntents and Charges created in that
  window. It keeps the successful ones and drops charges already settled by
  a successful intent. It then adds up the gross volume, counts distinct
  customers and counts payments.
- The helpers `formatCurrency`, `formatDate` and `getBalance`.
- `/stats` (`src/commands/stats.ts`). It builds 25 date options at a fixed
  offset from UTC, turns a chosen `YYYY-MM-DD` value back into an instant,
  and renders the header.
- `/expense` (`src/commands/expense.ts`). This covers the category menu, the
  modal custom id carrying the chosen category, the category resolution, the
  ordered validation of a submitted amount, and the remove-menu labels.
- `/revenue` and `/summary` (`src/commands/revenue.ts`,
  `src/commands/summary.ts`). These cover the payout folds, the revenue
  figures, the profit marker, the payout and expense lists and the embed
  field truncation.

The modules follow the program's structure:

| module | file | models |
|---|---|---|
| `Base` | base.dfy | options, order-preserving filter, integer folds, `slice(0, n)` |
| `Text` | text.dfy | digits, `String(n)`, `padStart`, `trim`, `toLowerCase`, `split`/`join`, `replace`, ellipsis truncation |
| `Money` | money.dfy | `(cents / 100).toFixed(2)` for whole cents, and a reader for that text |
| `Calendar` | calendar.dfy | days ↔ proleptic Gregorian dates, `Date.UTC`, UTC field getters, week days |
| `Pagination` | pagination.dfy | the `has_more`/`starting_after` loop, the list endpoint, and the loop run against it |
| `Stripe` | stripe.dfy | records, the day window, filters, de-duplication, volume, customer keys, `getTodayStats`, `formatCurrency`, `formatDate`, `getBalance` |
| `StatsCommand` | stats.dfy | the 25 options, reading a value back, the header |
| `ExpenseCommand` | expense.dfy | the menu, the modal id, category resolution, `parseFloat`, `handleExpenseModal`, remove labels |
| `RevenueCommand` | revenue.dfy | payout selection and folds, the revenue report |
| `SummaryCommand` | summary.dfy | the summary figures, payout list, expense list and field truncation |
| `Scenarios` | scenarios.dfy | concrete cases: currency texts, one day window, the first options of one menu, one selected date, three submitted expenses |

Modelling choices:

- Stripe amounts are integer cents. The dollar figures the commands compute
  (`totalRevenue`, `trueTotal`, `revenue`) are exact Dafny `real`s, and
  `toFixed(2)` is modelled on whole cents only.
- Instants are epoch milliseconds as `int`.
- The host time zone is a fixed offset in seconds, passed as a parameter.
  `TIMEZONE_OFFSET_HOURS` is a parameter in hours.
- Everything fetched from Stripe or Postgres is a parameter: the records
  each endpoint lists, the balance lists, the expense total in cents and the
  recent expenses.
- `parseFloat` is an exact decimal-prefix reader. `Number(part)` accepts
  decimal digits only.

## Model

| member | source | states |
|---|---|---|
| Stripe.WindowShape | src/stripe.ts:104-110 | the window from local midnight to local 23:59:59.999, floored to seconds, is 86 399 seconds long and contains the current second |
| Stripe.WindowIsLocalDay | src/stripe.ts:99-110 | a creation second lies in the window if and only if it falls on the same host-local calendar day as now |
| Pagination.Drain | src/stripe.ts:122-144 | the first request carries the starting cursor; each further request carries the id of the last record of the previous page; the loop stops by itself exactly when a page has `has_more` false or is empty; the records are the pages it consumed, concatenated in order |
| Pagination.DrainChain | src/stripe.ts:122-144 | fed a properly linked sequence of pages, the loop consumes all of them, sends exactly their cursors, stops by itself and returns all their records |
| Pagination.PageAt | src/stripe.ts:122-144 | against a listing with unique non-empty ids, the page asked for after the first `pos` records is the next hundred records; the loop continues exactly when more than a hundred remain, and its next cursor is the one for `pos + 100` |
| Pagination.CollectAll | src/stripe.ts:151-173 | the loop run against the list endpoint terminates and returns the listing exactly, with nothing lost and nothing repeated, in one call per started hundred (one call for none); what it did is what `Drain` describes for the pages it got |
| Stripe.GetTodayStats | src/stripe.ts:96-262 | the result is the aggregate of exactly the intents and charges created inside the day window, each fetched through the pagination loop |
| Stripe.LinkedChargeIds | src/stripe.ts:182-190 | the set never holds the empty id and holds every non-empty `latest_charge` id, whether given as a string or as an expanded object |
| Stripe.LinkedChargeIdsFromIntents | src/stripe.ts:182-190 | every id in the set is the `latest_charge` of one of the intents |
| Stripe.StandaloneMembers | src/stripe.ts:176-193 | a charge is standalone if and only if it is listed, has status `succeeded`, is paid, and no successful intent names it as its latest charge |
| Stripe.StandaloneIdempotent | src/stripe.ts:179-193 | the standalone charges are already successful and free of linked ids, so filtering them again changes nothing |
| Stripe.IntentVolume | src/stripe.ts:198 | an intent contributes `amount_received`, falling back to `amount` when that is 0 |
| Stripe.GrossVolumeCountsChargesOnce | src/stripe.ts:192-202 | gross volume plus the linked charges' amounts equals all intent volume plus all successful charges' amounts, so each successful charge is counted once, through its intent or on its own |
| Stripe.GrossVolumeNonNegative | src/stripe.ts:196-202 | with no negative amounts the gross volume is not negative |
| Stripe.CustomerKey | src/stripe.ts:209-231 | a customer id, plain or expanded, is the key; without one the key exists exactly when the email is not blank, and it is then `email:` plus the lower-cased, trimmed email |
| Stripe.EmailKeysSeparate | src/stripe.ts:221-231 | two records without a customer id share a key if and only if their emails agree once lower-cased and trimmed |
| Stripe.EmailKeyIgnoresCase | src/stripe.ts:221-226 | emails differing only in letter case give the same key |
| Stripe.EmailKeyIgnoresPadding | src/stripe.ts:247-252 | whitespace around an email does not change its key |
| Stripe.KeySet | src/stripe.ts:206-259 | the customer set holds every key present and nothing else, and it has no more members than there are records |
| Stripe.Aggregate | src/stripe.ts:259-262 | `payments` is the number of successful intents plus the number of standalone charges, and `customers` never exceeds `payments` |
| Stripe.FormatCurrencyRoundTrip | src/stripe.ts:74-77 | `formatCurrency` gives `$` and then text that reads back as exactly the cents; a minus sign comes right after the `$` exactly for negative amounts |
| Money.Fixed2RoundTrip | src/stripe.ts:76 | `(cents / 100).toFixed(2)` on whole cents reads back as the same cents |
| Stripe.FormatDateOfDay | src/stripe.ts:79-83 | any timestamp on a host-local calendar day renders as that day's short month name and day of month |
| Text.TrimIsPiece | src/stripe.ts:222 | `trim` keeps one contiguous piece of the text and cuts away only whitespace on either side |
| Stripe.GetBalance | src/stripe.ts:36-40 | each of available and pending is the first entry's amount, or 0 when there is none, and the total is their sum |
| Calendar.CivilFromDays | src/commands/stats.ts:42-45 | the UTC fields of a day number form a valid date whose day number is that day |
| Calendar.CivilOfDaysFromCivil | src/commands/stats.ts:100 | converting a valid date to its day number and back gives the same date |
| Calendar.CivilFromDaysIncreasing | src/commands/stats.ts:35-36 | a smaller day number gives a strictly earlier calendar date |
| Calendar.DateUtcOfDate | src/commands/stats.ts:100 | `Date.UTC(y, m - 1, d)` is midnight UTC of that date when the year is outside 0..99 |
| Calendar.WeekDay | src/commands/stats.ts:42 | the weekday index is between 0 and 6, so the day-name lookup never misses |
| Calendar.WeekDayCycle | src/commands/stats.ts:42 | 1970-01-01 is a Thursday (index 4), each next day is the next weekday modulo 7, and the week repeats every 7 days |
| StatsCommand.DateOptions | src/commands/stats.ts:34-61 | there are exactly 25 options, and option `i` is built from the instant `i` whole days before now |
| StatsCommand.LabelShapes | src/commands/stats.ts:47-54 | option 0's label starts `Today - `, option 1's starts `Yesterday - `, and every later label ends with `, ` and the year |
| StatsCommand.DateValueParts | src/commands/stats.ts:58 | a value is the year, the two-digit month and the two-digit day joined by `-` |
| StatsCommand.NumberOfDigits | src/commands/stats.ts:98 | `Number` of a non-empty run of digits is its decimal value |
| StatsCommand.ReadDateValue | src/commands/stats.ts:58-98 | for a non-negative year, splitting a value on `-` gives three parts that read back as the year, month and day it was built from |
| StatsCommand.SelectedOfParts | src/commands/stats.ts:98-101 | a value whose three parts read as `y`, `m`, `d` selects `Date.UTC(y, m - 1, d)` moved back by the offset |
| StatsCommand.SelectDate | src/commands/stats.ts:98-101 | the instant selected for a date's value is that date's local midnight moved back by the offset |
| StatsCommand.OptionRoundTrip | src/commands/stats.ts:98-111 | choosing option `i` queries local midnight of the day the option shows; adding the offset back recovers that midnight, so the header names the option's weekday, month, day and year, and equals the option's label from the third option on |
| StatsCommand.OptionDays | src/commands/stats.ts:35-38 | option `i` lies exactly `i` local days before option 0 |
| StatsCommand.OptionsDecrease | src/commands/stats.ts:35-38 | later options show strictly earlier calendar dates |
| StatsCommand.DateValueInjective | src/commands/stats.ts:58 | different dates, of any year, have different values |
| StatsCommand.OptionValuesDistinct | src/commands/stats.ts:34-58 | no two options share a value, whatever year the clock gives |
| ExpenseCommand.CategoryMenu | src/commands/expense.ts:83-102 | the menu has the create and no-category options first, then the first 23 categories, each as both caption and value, so never more than 25 options |
| ExpenseCommand.MenuOffersCategory | src/commands/expense.ts:95-102 | each of the first 23 categories can be chosen from the menu |
| ExpenseCommand.ModalIdRoundTrip | src/commands/expense.ts:178-184 | the id built at line 127 for any selected value passes the prefix check, and removing the prefix gives back exactly the selected value |
| ExpenseCommand.ResolveCategory | src/commands/expense.ts:190-197 | non-blank input wins, trimmed; with blank input, the two special choices give no category and any other choice gives the selected category |
| ExpenseCommand.PrefilledCategoryKept | src/commands/expense.ts:158-196 | submitting an existing category's pre-filled input unchanged keeps that category |
| ExpenseCommand.LeadingDigits | src/commands/expense.ts:201 | the run of digits `parseFloat` reads is all digits and stops at the first non-digit |
| ExpenseCommand.ParseUnsigned | src/commands/expense.ts:201 | an unsigned decimal reads as NaN or as a non-negative number |
| ExpenseCommand.ParseMagnitude | src/commands/expense.ts:201 | without a sign the result is NaN, a non-negative number or positive Infinity |
| ExpenseCommand.ParseFloatOfDigitStart | src/commands/expense.ts:201 | text starting with a digit has no whitespace, sign or `Infinity` for `parseFloat` to handle |
| ExpenseCommand.ParseFloatOfParts | src/commands/expense.ts:201 | `digits.dd` reads as the whole units plus the hundredths |
| ExpenseCommand.ParseFloatOfFixed2 | src/commands/expense.ts:201 | the `toFixed(2)` text of a non-negative amount of cents reads back as exactly that amount |
| ExpenseCommand.Validate | src/commands/expense.ts:203-241 | the first failing check decides: an amount that is NaN or not positive is invalid; otherwise a `-` anywhere in the raw text is rejected; otherwise a missing or blank category is rejected; only then is the expense added, with the parsed amount and the category |
| ExpenseCommand.HandleExpenseModal | src/commands/expense.ts:177-241 | another modal is ignored exactly when its id lacks the prefix; otherwise the outcome is never ignored |
| ExpenseCommand.MinusNeverStored | src/commands/expense.ts:200-228 | amount text containing `-` never leads to a stored expense |
| ExpenseCommand.DollarSignsInvisible | src/commands/expense.ts:200 | removing `$` first changes neither the cleaned amount text nor whether the raw text contains `-` |
| ExpenseCommand.DollarSignsIgnored | src/commands/expense.ts:200-203 | `$` signs anywhere in the amount make no difference to the outcome |
| ExpenseCommand.SubmittedChoice | src/commands/expense.ts:190-241 | with a valid amount and blank category input, the chosen existing category is stored, and the two special choices (or a blank choice) are rejected for want of a category |
| ExpenseCommand.LabelCategory | src/commands/expense.ts:311-312 | a missing category reads `No Category`; a category of at most 50 characters is kept unchanged; a longer one becomes its first 50 characters and `...` |
| ExpenseCommand.RemoveLabel | src/commands/expense.ts:312 | the label is `$`, the amount, ` - ` and the category part, at most 53 characters longer than the amount prefix |
| ExpenseCommand.RemoveLabelAmount | src/commands/expense.ts:312 | the amount shown in a label reads back as the expense's amount |
| RevenueCommand.GetPendingPayouts | src/stripe.ts:58-63 | the listing's pending payouts in listing order, newest first, cut to the first 100; when there are at most 100, every pending payout of the listing is returned |
| RevenueCommand.PaidContribution | src/commands/revenue.ts:31-32 | a payout adds its amount to the paid total if and only if its status is `paid`, wherever it sits |
| RevenueCommand.PendingContribution | src/commands/revenue.ts:33 | every listed pending payout adds its amount to the pending total |
| RevenueCommand.PendingNeverPaid | src/commands/revenue.ts:25-33 | no payout adds to both totals: the pending list adds nothing to a paid total, and none of its payouts is among the paid payouts counted from the newest 100 |
| RevenueCommand.HandleRevenue | src/commands/revenue.ts:25-33 | the paid total covers the paid payouts among the newest 100, and the pending total covers the listed pending payouts |
| RevenueCommand.Report | src/commands/revenue.ts:36-92 | the revenue cents are available plus pending plus both payout totals; total revenue is those cents divided by 100 once; the true total subtracts the expenses exactly; the shown texts format those same cent amounts; the marker is ✅ exactly when the true total is not negative, and ❌ otherwise |
| RevenueCommand.ProfitMarkerInCents | src/commands/revenue.ts:89 | the marker is ✅ exactly when the cents taken in cover the expenses |
| SummaryCommand.PayoutListLines | src/commands/summary.ts:34-44 | the payout list is the lines of at most 10 paid payouts followed by every pending payout, joined by newlines; with no paid lines it is the pending list alone |
| SummaryCommand.PayoutField | src/commands/summary.ts:64 | the payouts field is the list itself whenever that is not empty, and `No payouts` when it is |
| SummaryCommand.ExpenseList | src/commands/summary.ts:47-56 | the list is `No expenses` exactly when there are no recent expenses |
| SummaryCommand.NoNewlineInExpenseLine | src/commands/summary.ts:53 | an expense line holds a line break only if its category does |
| SummaryCommand.ExpenseListLines | src/commands/summary.ts:47-56 | when categories hold no line breaks, the list splits back into one line per shown expense, at most 10 |
| SummaryCommand.ExpenseField | src/commands/summary.ts:74 | the field is at most 1024 characters: a list that fits is kept whole, and a longer one becomes its first 1020 characters and `...` |
| SummaryCommand.SummaryOf | src/commands/summary.ts:21-84 | total payouts are paid plus pending; revenue is the paid payouts in dollars minus the expenses, equal to the difference in cents divided by 100; the revenue and total-payouts texts format exactly those cent amounts; the payouts field is never empty and is the list whenever the list is not empty; the expenses field fits in 1024 characters and is the list whenever the list fits |
| SummaryCommand.HandleSummary | src/commands/summary.ts:17-56 | the paid total covers the paid payouts among the newest 20, and the pending total covers the listed pending payouts |
| SummaryCommand.RevenueExceedsSummary | src/commands/summary.ts:31 | for an account with at most 20 payouts, `/revenue`'s true total exceeds `/summary`'s revenue by exactly the available and pending balance and the pending payouts, which `/summary` leaves out |
| Scenarios.FormatCurrencyExample | src/stripe.ts:74-77 | 12 345 cents are shown as `$123.45` |
| Scenarios.FormatCurrencyZero | src/stripe.ts:74-77 | zero cents are shown as `$0.00` |
| Scenarios.FormatCurrencyNegative | src/stripe.ts:74-77 | minus five cents are shown as `$-0.05`, the sign after the dollar sign |
| Scenarios.DayWindowExample | src/stripe.ts:99-110 | at noon UTC on 2025-10-10 on a host five hours behind UTC, the window runs from second 1 760 072 400 to second 1 760 158 799 |
| Scenarios.OptionOnOctober | src/commands/stats.ts:35-45 | at that instant, five hours behind UTC, the first three options fall on 2025-10-10, 2025-10-09 and 2025-10-08 |
| Scenarios.OctoberWeekDays | src/commands/stats.ts:42 | 2025-10-10 is named `Fri` and 2026-10-10 `Sat` |
| Scenarios.WeekDayExamples | src/commands/stats.ts:42 | 1970-01-01 is named `Thu` and 2000-01-01 `Sat` |
| Scenarios.OctoberTenthValue | src/commands/stats.ts:56-58 | 2025-10-10 has the value `2025-10-10` |
| Scenarios.OctoberEighthValue | src/commands/stats.ts:56-58 | 2025-10-08 has the value `2025-10-08`, the day padded to two digits |
| Scenarios.SelectedInstantExample | src/commands/stats.ts:98-101 | choosing `2025-10-10` five hours behind UTC queries the instant 1 760 072 400 000 ms, local midnight |
| Scenarios.StoredExpenseExample | src/commands/expense.ts:177-241 | choosing `Food` and typing `$12` stores 12 under `Food` |
| Scenarios.NegativeAmountExample | src/commands/expense.ts:200-228 | typing `-5` is refused for its minus sign, although the cleaned text reads as 5 |
| Scenarios.InvalidAmountExample | src/commands/expense.ts:200-215 | typing `abc` is refused as an invalid amount |

## Left out

- Stripe, Postgres and Discord I/O is left out because it is foreign code. This covers the clients, every list and retrieve call, the SQL, the builders, replies and modals, command dispatch, start-up, and the role gate. Their results are parameters.
- The host time zone is a fixed offset parameter, and daylight saving time is not modelled. `setDate(getDate() - i)` is an exact 24-hour step.
- Floating point is not modelled. Amounts are integer cents and dollar figures are exact rationals, so binary rounding is left out. The same goes for `toFixed` on amounts that are not whole cents, `toFixed` at 1e21 or more, and the float sums of expenses (`getTotalExpenses` and the stored amounts are given in cents).
- ExpenseCommand.ParseFloat: reads decimal text exactly and does not round to a double, so underflow and overflow to Infinity are left out.
- StatsCommand.NumberOf: reads trimmed decimal digits only. Signs, exponents, fractions and hexadecimal are treated as NaN, and no value the menu builds contains them.
- StatsCommand.OptionRoundTrip: requires a year of 100 or more, because `Date.UTC` maps years 0 to 99 onto 1900 to 1999.
- StatsCommand.ReadDateValue: requires a non-negative year, because a negative year's own `-` adds a fourth part when the value is split.
- Pagination.CollectAll and Stripe.GetTodayStats: require the listing's ids to be unique and non-empty. Stripe ids are never empty. A page whose last record had an empty id, with `has_more` set, would make the source request the first page again without end.
- `Date.UTC`'s time-clip range of ±8.64e15 ms is not modelled.
- Strings are sequences of Unicode characters, not UTF-16 code units. Lengths such as the 50-character category cut and the 1024-character field limit therefore count characters, and text with characters outside the Basic Multilingual Plane is measured differently. `toLowerCase` maps ASCII letters only. `trim` removes the ECMAScript whitespace and line-terminator set.
- A missing email, category or `latest_charge` is modelled as the empty string. The source treats `null`, `undefined` and `""` alike at these points.
- SummaryCommand.RevenueExceedsSummary: holds only for at most 20 payouts. With more, `/summary` sees only the newest 20 while `/revenue` sees 100.
- The presentation texts of the embeds and containers (headings, breakdown, expense totals as `-$x.yy`) are left out. Only the figures and lists they show are modelled.
- `getStatsForDate` is imported by `src/commands/stats.ts` but defined nowhere in the source, so the stats fetched for a chosen date are not modelled.
- `timezoneOffsetHours` is declared a second time in `handleStatsDateSelect`. It is read as the same value.
- `handleHistoryDateSelect` is referenced but never defined, so it is not modelled.
- `src/commands/balance.ts`, `src/commands/daily.ts` and `scripts/addInitialExpenses.ts` are left out. The first two are presentation only, and the third is a one-off seeding script.

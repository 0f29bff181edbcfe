# MoneyTree recurring bills and email reminders, modelled in Dafny

This project models two parts of the MoneyTree personal-finance app.

**The recurring-bill detector.** `detectRecurring` in `src/lib/recurring.ts`:
- It groups transactions by exact name.
- It sorts each group by its date strings.
- A group of three or more qualifies when the average gap between neighbouring dates lies strictly inside the monthly band (26 to 35 days) or the weekly band (6 to 8 days).
- A qualifying group yields one subscription. It takes the amount of the group's latest transaction and is due 30 or 7 days after that transaction's date.

**The email service and the reminder scheduler** in `src/lib/email-service.ts`:
- A template is looked up by id.
- Its `{{key}}` placeholders are replaced by the template data: every occurrence, in subject, HTML and text alike, key after key.
- The senders build that data and call `sendTemplate`.
- The `ReminderScheduler` walks bills and budgets once each and sends a bill reminder or a budget alert where its rule fires.

Files:
- `wrappers.dfy`: `Option`. `None` also stands for ECMAScript's NaN.
- `strings.dfy`: code-unit string comparison and digit strings.
- `calendar.dfy`: ECMA-262 day numbers (section 21.4.1 of ECMA-262) and civil dates.
- `iso_date.dfy`: date-only ISO strings, read at UTC midnight, and what `toISOString` writes.
- `recurring.dfy`: the detector. Its loops are imperative methods: grouping, an in-place stable insertion sort over an `array`, and gap collection. Each method is proved against a specification function.
- `recurring_proofs.dfy`: what the detector promises, stated over those functions.
- `email_service.dfy`: global replacement, `processTemplate` as a loop, the template table, `sendTemplate` and the five senders.
- `scheduler.dfy`: the scheduler rules. `ReminderScheduler` is a class that records the calls it makes on the email service.

## Model

| member | source | states |
|---|---|---|
| Recurring.DaysBetween | src/lib/recurring.ts:5-9 | NaN exactly when either date is invalid; 0 exactly for equal dates; otherwise the later day number minus the earlier, in either argument order (the absolute difference) |
| Recurring.Names | src/lib/recurring.ts:12-18 | the keys of the by-name dictionary: distinct, and exactly the names that occur |
| Recurring.GroupByName | src/lib/recurring.ts:12-16 | the loop builds a map whose keys are the names in first-appearance order and whose value for each name is its transactions in input order |
| Recurring.Named | src/lib/recurring.ts:12-16 | a name's group holds only transactions of that name, no more than the input |
| RecurringProofs.NamedComplete | src/lib/recurring.ts:12-16 | a name's group holds every transaction of that name, as often as the input does, and no other |
| Recurring.InsertPass | src/lib/recurring.ts:19 | one insertion step in place: the prefix becomes the old prefix with the element inserted after every earlier-or-equal date, and the rest is untouched |
| Recurring.Insert | src/lib/recurring.ts:19 | one insertion step adds exactly one element |
| RecurringProofs.InsertMultiset | src/lib/recurring.ts:19 | one insertion step adds the element and loses nothing |
| RecurringProofs.InsertAscending | src/lib/recurring.ts:19 | inserting into an ascending sequence keeps it ascending |
| RecurringProofs.InsertWithDate | src/lib/recurring.ts:19 | inserting puts the element after every element with the same date |
| Recurring.StableSortByDate | src/lib/recurring.ts:19 | the sorted group has the group's length |
| Recurring.SortByDate | src/lib/recurring.ts:19 | sorts the array in place into StableSortByDate of its old contents |
| RecurringProofs.SortPermutes | src/lib/recurring.ts:19 | the sort is a permutation of the group |
| RecurringProofs.SortAscending | src/lib/recurring.ts:19 | the sorted group is in ascending date-string order |
| RecurringProofs.SortStable | src/lib/recurring.ts:19 | transactions with equal dates keep their input order (stable sort) |
| RecurringProofs.SortLast | src/lib/recurring.ts:19-29 | the element whose amount is taken has the latest date, and it is the last of those with that date in input order |
| IsoDate.Parse | src/lib/recurring.ts:6-7 | a date string is valid exactly when it is a well-formed "YYYY-MM-DD" naming an existing day, and then it denotes the date its digits spell |
| IsoDate.ParseDateText | src/lib/recurring.ts:28-30 | a date with a four-digit year, written as toISOString writes it, reads back as that date |
| IsoDate.DateTextParse | src/lib/recurring.ts:28-30 | a valid date string is exactly how its date is written back |
| Calendar.CivilDayRoundTrip | src/lib/recurring.ts:28-29 | the date of a date's day number is that date: day numbers and dates are inverse |
| IsoDate.ChronologicalOrder | src/lib/recurring.ts:19 | for valid ISO dates, the string order used by the sort is chronological order |
| Recurring.Gaps | src/lib/recurring.ts:21-22 | one gap per pair of neighbours |
| Recurring.CollectGaps | src/lib/recurring.ts:21-22 | the loop collects exactly the gaps of the sorted group |
| Recurring.GapsAt | src/lib/recurring.ts:22 | gap k is daysBetween of elements k and k+1 |
| Recurring.Total | src/lib/recurring.ts:23 | the gap sum is a number exactly when no gap is NaN |
| Recurring.Classify | src/lib/recurring.ts:23-25 | a cadence is found only when the average gap lies strictly between the weekly lower bound and the monthly upper bound |
| RecurringProofs.GapsTelescope | src/lib/recurring.ts:21-23 | the gaps of a sorted group of valid dates sum to its last day minus its first |
| RecurringProofs.SortedTotal | src/lib/recurring.ts:19-23 | after sorting, the gap sum is the span from earliest to latest date |
| Recurring.ClassifyBands | src/lib/recurring.ts:23-25 | the integer band test agrees with the open real bands on the average gap; both bands cannot hold at once |
| Recurring.AverageBounds | src/lib/recurring.ts:23-25 | comparing the average with a bound is comparing the total with bound times count |
| Recurring.Due | src/lib/recurring.ts:27-30 | the due date is a ten-character slice of toISOString |
| Recurring.DueDate | src/lib/recurring.ts:27-30 | the next due date is a valid ISO date exactly `days` days after the latest date, within four-digit years |
| Recurring.DueText | src/lib/recurring.ts:27-30 | the due date is the date part of toISOString of that day |
| Recurring.FromSorted | src/lib/recurring.ts:20-31 | a found subscription carries the group's name, is recurring, and comes from three or more transactions |
| Recurring.ClassifySorted | src/lib/recurring.ts:21-31 | the gap, average and band code yields exactly FromSorted of the sorted group |
| Recurring.Detected | src/lib/recurring.ts:18-32 | a group yields a subscription only with three or more transactions, carrying its name and marked recurring |
| Recurring.DetectGroup | src/lib/recurring.ts:18-32 | one pass of the loop yields exactly what the name group determines |
| Recurring.Entry | src/lib/recurring.ts:18-32 | each name contributes at most one recurring subscription, carrying that name |
| Recurring.Emit | src/lib/recurring.ts:18-32 | at most one subscription per listed name, each named after a listed name and recurring |
| Recurring.Detect | src/lib/recurring.ts:11-34 | every subscription is recurring and names a name that occurs in the input |
| Recurring.DetectRecurring | src/lib/recurring.ts:11-34 | the method returns exactly Detect of the transactions |
| RecurringProofs.DetectShape | src/lib/recurring.ts:11-34 | no two results share a name; every result is recurring and names an input name; no input, no result |
| RecurringProofs.Isolation | src/lib/recurring.ts:12-18 | a name's result depends only on that name's transactions, however other names interleave |
| RecurringProofs.NamedEntry | src/lib/recurring.ts:18-32 | the results named n are exactly the entry of n's group |
| RecurringProofs.EmitNamed | src/lib/recurring.ts:18-32 | in the output, the entries for a name are what its group yields |
| RecurringProofs.EmitDistinct | src/lib/recurring.ts:18-32 | entries follow distinct names, so no two share a name |
| RecurringProofs.SmallGroupYieldsNothing | src/lib/recurring.ts:20 | fewer than three transactions never make a subscription |
| RecurringProofs.SmallGroupsAbsent | src/lib/recurring.ts:20 | a name with fewer than three transactions is absent from the result |
| RecurringProofs.InvalidDateYieldsNothing | src/lib/recurring.ts:21-25 | a group holding an invalid date yields nothing, because its average is NaN |
| RecurringProofs.NaNGapYieldsNothing | src/lib/recurring.ts:22-25 | one NaN gap makes the sorted group yield nothing |
| RecurringProofs.DetectedCadence | src/lib/recurring.ts:19-31 | a group whose span has a cadence yields the subscription due one cadence after its latest date, with that transaction's amount |
| RecurringProofs.DetectedMonthly | src/lib/recurring.ts:24-31 | an average strictly between 26 and 35 days yields the latest amount, due 30 days after the latest date |
| RecurringProofs.DetectedWeekly | src/lib/recurring.ts:25-31 | an average strictly between 6 and 8 days yields the latest amount, due 7 days after the latest date |
| RecurringProofs.DetectedNeither | src/lib/recurring.ts:24-26 | an average in neither band yields nothing |
| RecurringProofs.BoundaryAveragesYieldNothing | src/lib/recurring.ts:24-25 | averages of exactly 6, 8, 14, 26 or 35 days yield nothing: the bands are open |
| RecurringProofs.LastByDate | src/lib/recurring.ts:27-29 | for a group of valid dates, the transaction taken as latest has a valid date |
| EmailService.ReplaceAll | src/lib/email-service.ts:161-165 | replacing a pattern by itself changes nothing |
| EmailService.ReplaceUnmatched | src/lib/email-service.ts:161-165 | where the placeholder never occurs, replace changes nothing |
| EmailService.ReplaceConcat | src/lib/email-service.ts:161-165 | a global replace works piecewise across a boundary that no occurrence straddles |
| EmailService.ReplaceAround | src/lib/email-service.ts:161-165 | replacing key k's placeholder around another key's placeholder leaves that placeholder verbatim, or replaces it when the keys are equal |
| EmailService.OverlapIsSame | src/lib/email-service.ts:161 | two overlapping placeholder occurrences are the same placeholder at the same place |
| EmailService.ProcessTemplate | src/lib/email-service.ts:150-169 | subject, HTML and text each get the same substitution of every data key, in key order |
| EmailService.Substitute | src/lib/email-service.ts:155-168 | a template text without `{{` comes back unchanged |
| EmailService.NoOpenBracesUnchanged | src/lib/email-service.ts:161-165 | a text without `{{` holds no placeholder, so replacing one changes nothing |
| EmailService.SubstituteBraceFree | src/lib/email-service.ts:155-168 | a text without an opening brace comes back unchanged |
| EmailService.UnknownPlaceholderKept | src/lib/email-service.ts:160-166 | a placeholder whose name is not a data key stays verbatim, and the text around it is substituted as if it were not there |
| EmailService.SubstituteOnce | src/lib/email-service.ts:160-166 | when no key holds a brace, a placeholder for a key that occurs once is replaced by that key's value, with a brace-free value in brace-free surroundings |
| EmailService.PlaceholderCanReform | src/lib/email-service.ts:160-166 | a placeholder can survive substitution although no value contains `{{`: `{{{{a}}}}` with a = "a" gives `{{a}}`: the scan matches only the inner `{{a}}`, and the outer `{{` and `}}`, which stay in place, join with the value |
| EmailService.GetTemplate | src/lib/email-service.ts:172-247 | a template exists exactly for "welcome" and "bill-reminder", with the requested id, and active |
| EmailService.LookupAt | src/lib/email-service.ts:162 | a key's value is the one of its last entry |
| EmailService.Lookup | src/lib/email-service.ts:68 | `data.to` is present exactly when some entry has that key |
| EmailService.AssignLookup | src/lib/email-service.ts:140-144 | after assigning a property, it holds the new value and other properties are unchanged |
| EmailService.SpreadLookup | src/lib/email-service.ts:140-144 | after a spread, a spread property holds its spread value and any other keeps its earlier value |
| EmailService.TemplateSend | src/lib/email-service.ts:58-80 | the send fails exactly for ids other than the two templates, with "Template <id> not found"; otherwise the mail goes to `data.to` |
| EmailService.SendTemplate | src/lib/email-service.ts:58-80 | look-up, processing and hand-over give exactly TemplateSend |
| EmailService.AppUrl | src/lib/email-service.ts:114 | NEXTAUTH_URL when set and non-empty; http://localhost:3001 when it is missing or empty |
| EmailService.DaysUntil | src/lib/email-service.ts:89 | Math.ceil of the days left: the least whole number of days covering the time left |
| EmailService.BillReminderData | src/lib/email-service.ts:84-90 | the data holds the user as `to`, "Your Bill", "$100.00", the date text and the days until due |
| EmailService.SendBillReminder | src/lib/email-service.ts:83-93 | a bill reminder is always handed over, addressed to the reminder's userId |
| EmailService.BillReminderSubject | src/lib/email-service.ts:211 | its subject is "Bill Due Soon: Your Bill" |
| EmailService.BudgetAlertData | src/lib/email-service.ts:97-104 | the data holds the user as `to`, the fixed budget texts and the alert type |
| EmailService.SendBudgetAlert | src/lib/email-service.ts:96-107 | always fails with "Template budget-alert not found" |
| EmailService.WelcomeData | src/lib/email-service.ts:111-115 | the data holds the address, the greeting and the sign-in link under the app URL |
| EmailService.SendWelcomeEmail | src/lib/email-service.ts:110-118 | the welcome mail is always handed over, addressed to the given email |
| EmailService.Greeting | src/lib/email-service.ts:113 | a non-empty name is used as given; a missing or empty name gives "there" |
| EmailService.WelcomeSubject | src/lib/email-service.ts:178 | for a name without an opening brace, the subject is "Welcome to MoneyTree, <name or there>!" |
| EmailService.SendInvestmentAlert | src/lib/email-service.ts:121-136 | always fails with "Template investment-alert not found" |
| EmailService.NewsletterData | src/lib/email-service.ts:140-144 | `to` is the newsletter's own when it has one, else the address; the unsubscribe link under the app URL; every other key is the newsletter's |
| EmailService.NewsletterLookup | src/lib/email-service.ts:140-144 | the same three facts, key by key, for the assembled data |
| EmailService.SendNewsletter | src/lib/email-service.ts:139-147 | always fails with "Template newsletter not found" |
| Scheduler.LeadDays | src/lib/email-service.ts:262 | `reminderDays \|\| 7`: 7 for a missing or zero value, else the value |
| Scheduler.ReminderTime | src/lib/email-service.ts:261-262 | the reminder date is a clipped time value, or invalid |
| Scheduler.ReminderFor | src/lib/email-service.ts:265-272 | the reminder record: id "reminder-" + bill id, the user, the bill, the date, pending, the bill-reminder template |
| Scheduler.BillStep | src/lib/email-service.ts:261-273 | at most one send per bill; a send happens exactly when the due date is valid, the bill is not reminded, and due minus lead days is a valid date after now; the record it carries |
| Scheduler.BillSendsConcat | src/lib/email-service.ts:260 | bills are handled one after another: the sends for a + b are those for a, then those for b |
| Scheduler.BillSends | src/lib/email-service.ts:259-275 | no more sends than bills |
| Scheduler.BillSendsDispatched | src/lib/email-service.ts:259-275 | every send is a reminder for a given bill; the email service hands it over to the bill's user with the bill-reminder subject |
| Scheduler.SpentPercent | src/lib/email-service.ts:280 | for a zero amount the percentage is Infinity (alert, exceeded) when spent is positive, and otherwise NaN or -Infinity (no alert) |
| Scheduler.PositiveBudgetThresholds | src/lib/email-service.ts:280-287 | for a positive amount, 80% is reached exactly when spent ≥ 4/5 of the amount, and 100% exactly when spent ≥ amount |
| Scheduler.AlertFor | src/lib/email-service.ts:283-292 | the alert record: "exceeded" exactly at 100% or more, "warning" otherwise, with the ids, threshold, time and status |
| Scheduler.BudgetStep | src/lib/email-service.ts:280-293 | at most one send per budget, exactly when at least 80% is spent and no alert was sent, carrying AlertFor |
| Scheduler.BudgetSendsConcat | src/lib/email-service.ts:279 | budgets are handled one after another |
| Scheduler.BudgetSends | src/lib/email-service.ts:278-295 | no more sends than budgets |
| Scheduler.BudgetSendsFail | src/lib/email-service.ts:278-295 | every send is an alert for a given budget, and the email service fails it with "Template budget-alert not found" |
| Scheduler.ReminderScheduler.constructor | src/lib/email-service.ts:254-256 | a new scheduler has sent nothing |
| Scheduler.ReminderScheduler.ScheduleBillReminders | src/lib/email-service.ts:259-275 | appends exactly the sends of the bills, in bill order |
| Scheduler.ReminderScheduler.ScheduleBudgetAlerts | src/lib/email-service.ts:278-295 | appends exactly the sends of the budgets, in budget order |

## Left out

- Dates are strict: only "YYYY-MM-DD" naming an existing day is valid. Other strings that `new Date` accepts are invalid here, such as a time part or a day past the month's end.
- `localeCompare` is modelled as code-unit order. That is what it gives for ISO date strings; collation of other strings is not modelled.
- The key order of `Object.entries` and `Object.keys` is first-appearance order. Integer-like keys, which ECMAScript lists first, are not modelled.
- Recurring.DueDate: is proved only while the due date stays within four-digit years. Beyond them, `Due` and `IsoDate.YearText` write the sign and six digits as `toISOString` does, but no lemma states the resulting date. The `RangeError` that `toISOString` throws beyond the time-value range is not modelled.
- `setDate` is modelled in UTC. The local time zone and daylight-saving shifts of `getDate`/`setDate` are not modelled.
- Amounts, spending and percentages are exact reals. Floating-point rounding of `spent / amount * 100` and of `Math.ceil` is not modelled, nor the sign of a `-0` amount. The infinite and NaN quotients of a zero amount are modelled.
- Scheduler.LeadDays: `reminderDays` is a whole number. Fractional or non-numeric values, and `bill.dueDate` strings, are not modelled; the due date is given as a time value or None.
- The clock is read once per scheduler call (`now`) and passed as a parameter. The source reads it for each bill, and again in `sendBillReminder`.
- `toLocaleDateString` is a parameter (`dateText`). Locale formatting is not modelled.
- The budget alert's message text (`toFixed(1)`) is not modelled. No template uses it.
- `sendEmail` and the nodemailer transport: `Dispatched` means the mail is handed to the transport. Transport errors and message ids are not modelled.
- `process.env` values are `Option` parameters. The `EmailNotificationService` constructor only builds the transport and is not modelled.
- `getTemplate` ids that name `Object.prototype` properties are not modelled.
- Recurring.Detect: a transaction name that is an `Object.prototype` property (`constructor`, `toString`, `valueOf`, `hasOwnProperty`, `__proto__`) makes `byName[t.name] || []` pick up the inherited value, so `detectRecurring` throws a TypeError at src/lib/recurring.ts:14-15. The model groups such names like any other.
- Keys are matched literally. Regular-expression metacharacters in a key, and `$` patterns in a value, are not modelled. Values are strings: the conversion of numbers and other values to strings is written out only for `daysUntilDue`.
- `scheduleInvestmentAlerts` only logs and is not modelled.
- The `console.error` logging in the catch blocks of `sendEmail` and `sendTemplate` (src/lib/email-service.ts:49 and :74) is not modelled, like the transport errors that reach those blocks.
- What a send returns is not looked at by the scheduler, so its sends are recorded as calls. The returned promise, `await` ordering and concurrency are not modelled.


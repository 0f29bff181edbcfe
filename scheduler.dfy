/**
  The reminder scheduler: it walks a list of bills, or of budgets, once and
  in order, and sends a bill reminder or a budget alert for each item whose
  rule fires. The scheduler does not look at what a send returns, so a send
  is recorded as the call it makes on the email service, with the record it
  passes; what the email service makes of that call is stated by lemmas.
 */
module Scheduler {
  import opened Wrappers
  import opened EmailService

  /** The largest magnitude of a time value (TimeClip of ECMA-262, section
      21.4.1.31); anything beyond is an invalid date. */
  const MaxTime := 8_640_000_000_000_000

  /** A time value: milliseconds since 1970-01-01 UTC, within the range a
      Date can hold. */
  type TimeValue = t: int | -MaxTime <= t <= MaxTime

  /** A bill as the scheduler reads it. dueDate is the time value of
      `new Date(bill.dueDate)`, None when that is an invalid date;
      reminderDays is None when the bill has none. */
  datatype Bill = Bill(id: string, userId: string, dueDate: Option<TimeValue>, reminderDays: Option<int>, reminderSent: bool)

  /** A budget as the scheduler reads it. */
  datatype Budget = Budget(id: string, userId: string, name: string, spent: real, amount: real, alertSent: bool)

  /** A call the scheduler made on the email service. */
  datatype Send =
    | BillReminderSent(reminder: BillReminder)
    | BudgetAlertSent(alert: BudgetAlert)

  // ---------------------------------------------------------------------
  // Bills

  /** `bill.reminderDays || 7`: a missing or zero lead time means seven days. */
  function LeadDays(reminderDays: Option<int>): (d: int)
    ensures reminderDays.None? || reminderDays == Some(0) ==> d == 7
    ensures reminderDays.Some? && reminderDays.value != 0 ==> d == reminderDays.value
  {
    if reminderDays.Some? && reminderDays.value != 0 then reminderDays.value else 7
  }

  /** The reminder date: the due date moved back by the lead time, or None
      when the due date is invalid or the result leaves the range of time
      values. */
  function ReminderTime(bill: Bill): (t: Option<int>)
    ensures t.Some? ==> -MaxTime <= t.value <= MaxTime
  {
    if bill.dueDate.None? then None
    else
      var t := bill.dueDate.value - LeadDays(bill.reminderDays) * MsPerDay;
      if -MaxTime <= t <= MaxTime then Some(t) else None
  }

  /** The record handed to sendBillReminder. */
  function ReminderFor(bill: Bill, reminderDate: int): (r: BillReminder)
    ensures r.billId == bill.id && r.userId == bill.userId && r.reminderDate == reminderDate
    ensures r.id == "reminder-" + bill.id && r.status == "pending" && r.emailTemplate == "bill-reminder"
  {
    BillReminder("reminder-" + bill.id, bill.userId, bill.id, reminderDate, "pending", "bill-reminder")
  }

  /** What one bill contributes: a reminder exactly when the due date is
      valid, no reminder was sent yet, and the due date less the lead time
      is a valid time after now; the reminder is dated that instant and
      names the bill. */
  function BillStep(bill: Bill, now: int): (r: seq<Send>)
    ensures |r| <= 1
    ensures |r| == 1 <==>
      bill.dueDate.Some? && !bill.reminderSent
      && now < bill.dueDate.value - LeadDays(bill.reminderDays) * MsPerDay <= MaxTime
      && -MaxTime <= bill.dueDate.value - LeadDays(bill.reminderDays) * MsPerDay
    ensures |r| == 1 ==>
      r[0].BillReminderSent? && r[0].reminder.billId == bill.id && r[0].reminder.userId == bill.userId
      && r[0].reminder.reminderDate == bill.dueDate.value - LeadDays(bill.reminderDays) * MsPerDay
  {
    var t := ReminderTime(bill);
    if t.Some? && t.value > now && !bill.reminderSent then [BillReminderSent(ReminderFor(bill, t.value))]
    else []
  }

  /** The sends of scheduleBillReminders, bill after bill. */
  function BillSends(bills: seq<Bill>, now: int): (r: seq<Send>)
    ensures |r| <= |bills|
  {
    if bills == [] then []
    else BillSends(bills[..|bills| - 1], now) + BillStep(bills[|bills| - 1], now)
  }

  /** Bills are handled one after another: the sends for a + b are those for
      a followed by those for b. */
  lemma {:induction false} BillSendsConcat(a: seq<Bill>, b: seq<Bill>, now: int)
    ensures BillSends(a + b, now) == BillSends(a, now) + BillSends(b, now)
    decreases |b|
  {
    if b == [] {
      assert a + b == a;
    } else {
      var init, last := b[..|b| - 1], b[|b| - 1];
      assert (a + b)[..|a + b| - 1] == a + init && (a + b)[|a + b| - 1] == last;
      assert BillSends(a + b, now) == BillSends(a + init, now) + BillStep(last, now);
      BillSendsConcat(a, init, now);
      assert BillSends(b, now) == BillSends(init, now) + BillStep(last, now);
    }
  }

  /** Every reminder the scheduler sends is a reminder for a bill it was
      given, and the email service turns it into a "Bill Due Soon" mail to
      the bill's user. dateText stands for toLocaleDateString and now for
      the clock when the reminder is sent. */
  lemma {:induction false} BillSendsDispatched(bills: seq<Bill>, now: int, i: nat, sendTime: int, dateText: string)
    requires i < |BillSends(bills, now)|
    ensures BillSends(bills, now)[i].BillReminderSent?
    ensures exists k :: 0 <= k < |bills| && bills[k].id == BillSends(bills, now)[i].reminder.billId
    ensures SendBillReminder(BillSends(bills, now)[i].reminder, sendTime, dateText).mail.to
         == Some(BillSends(bills, now)[i].reminder.userId)
    ensures SendBillReminder(BillSends(bills, now)[i].reminder, sendTime, dateText).mail.subject
         == "Bill Due Soon: Your Bill"
  {
    var init := bills[..|bills| - 1];
    if i < |BillSends(init, now)| {
      BillSendsDispatched(init, now, i, sendTime, dateText);
      var k :| 0 <= k < |init| && init[k].id == BillSends(init, now)[i].reminder.billId;
      assert bills[k] == init[k];
    } else {
      assert BillSends(bills, now)[i] == BillStep(bills[|bills| - 1], now)[0];
    }
    BillReminderSubject(BillSends(bills, now)[i].reminder, sendTime, dateText);
  }

  // ---------------------------------------------------------------------
  // Budgets

  /** `p >= bound` for a number that may be infinite or NaN. */
  predicate AtLeast(p: Percent, bound: real) {
    match p
    case Finite(v) => v >= bound
    case PosInf => true
    case NegInf => false
    case NaN => false
  }

  /** `(spent / amount) * 100` as an IEEE quotient would come out, without
      rounding: a division by zero is infinite, or NaN for 0 / 0. */
  function SpentPercent(spent: real, amount: real): (p: Percent)
    ensures amount == 0.0 ==> (AtLeast(p, 80.0) <==> spent > 0.0) && (AtLeast(p, 100.0) <==> spent > 0.0)
  {
    if amount != 0.0 then Finite(spent / amount * 100.0)
    else if spent > 0.0 then PosInf
    else if spent < 0.0 then NegInf
    else NaN
  }

  /** For a positive budget the thresholds are 80% and 100% of the amount. */
  lemma PositiveBudgetThresholds(spent: real, amount: real)
    requires amount > 0.0
    ensures AtLeast(SpentPercent(spent, amount), 80.0) <==> spent * 5.0 >= amount * 4.0
    ensures AtLeast(SpentPercent(spent, amount), 100.0) <==> spent >= amount
  {
    var q := spent / amount;
    assert SpentPercent(spent, amount) == Finite(q * 100.0);
    QuotientAtLeast(spent, amount, 0.8);
    QuotientAtLeast(spent, amount, 1.0);
  }

  /** A quotient by a positive number is at least b exactly when the
      dividend is at least b times the divisor. */
  lemma QuotientAtLeast(spent: real, amount: real, b: real)
    requires amount > 0.0
    ensures spent / amount * 100.0 >= b * 100.0 <==> spent >= b * amount
  {
    var q := spent / amount;
    assert q * amount == spent;
    Scale(q, b, amount);
  }

  /** Multiplying by a positive number keeps the order. */
  lemma Scale(x: real, y: real, c: real)
    requires c > 0.0
    ensures x >= y <==> x * c >= y * c
  {
    if x >= y {
      assert x * c - y * c == (x - y) * c;
    } else {
      assert y * c - x * c == (y - x) * c;
    }
  }

  /** The record handed to sendBudgetAlert: exceeded at 100% or more, a
      warning below. */
  function AlertFor(budget: Budget, now: int): (a: BudgetAlert)
    ensures a.budgetId == budget.id && a.userId == budget.userId && a.id == "alert-" + budget.id
    ensures a.threshold == SpentPercent(budget.spent, budget.amount) && a.triggeredAt == now && a.status == "pending"
    ensures a.alertType == "exceeded" <==> AtLeast(SpentPercent(budget.spent, budget.amount), 100.0)
    ensures a.alertType == "warning" <==> !AtLeast(SpentPercent(budget.spent, budget.amount), 100.0)
  {
    var p := SpentPercent(budget.spent, budget.amount);
    BudgetAlert("alert-" + budget.id, budget.userId, budget.id, if AtLeast(p, 100.0) then "exceeded" else "warning", p, now, "pending")
  }

  /** What one budget contributes: an alert if at least 80% is spent and no
      alert was sent yet, and nothing otherwise. */
  function BudgetStep(budget: Budget, now: int): (r: seq<Send>)
    ensures |r| <= 1
    ensures |r| == 1 <==> AtLeast(SpentPercent(budget.spent, budget.amount), 80.0) && !budget.alertSent
    ensures |r| == 1 ==> r[0].BudgetAlertSent? && r[0].alert == AlertFor(budget, now)
  {
    var p := SpentPercent(budget.spent, budget.amount);
    if AtLeast(p, 80.0) && !budget.alertSent then
      var alert := AlertFor(budget, now);
      [BudgetAlertSent(alert)]
    else []
  }

  /** The sends of scheduleBudgetAlerts, budget after budget. */
  function BudgetSends(budgets: seq<Budget>, now: int): (r: seq<Send>)
    ensures |r| <= |budgets|
  {
    if budgets == [] then []
    else BudgetSends(budgets[..|budgets| - 1], now) + BudgetStep(budgets[|budgets| - 1], now)
  }

  /** Budgets are handled one after another. */
  lemma {:induction false} BudgetSendsConcat(a: seq<Budget>, b: seq<Budget>, now: int)
    ensures BudgetSends(a + b, now) == BudgetSends(a, now) + BudgetSends(b, now)
    decreases |b|
  {
    if b == [] {
      assert a + b == a;
    } else {
      var init, last := b[..|b| - 1], b[|b| - 1];
      assert (a + b)[..|a + b| - 1] == a + init && (a + b)[|a + b| - 1] == last;
      assert BudgetSends(a + b, now) == BudgetSends(a + init, now) + BudgetStep(last, now);
      BudgetSendsConcat(a, init, now);
      assert BudgetSends(b, now) == BudgetSends(init, now) + BudgetStep(last, now);
    }
  }

  /** Every alert the scheduler sends is for a budget it was given, and
      none is ever delivered: there is no budget-alert template. */
  lemma {:induction false} BudgetSendsFail(budgets: seq<Budget>, now: int, i: nat)
    requires i < |BudgetSends(budgets, now)|
    ensures BudgetSends(budgets, now)[i].BudgetAlertSent?
    ensures exists k :: 0 <= k < |budgets| && budgets[k].id == BudgetSends(budgets, now)[i].alert.budgetId
    ensures SendBudgetAlert(BudgetSends(budgets, now)[i].alert) == Failed(NotFound("budget-alert"))
  {
    var init := budgets[..|budgets| - 1];
    if i < |BudgetSends(init, now)| {
      BudgetSendsFail(init, now, i);
      var k :| 0 <= k < |init| && init[k].id == BudgetSends(init, now)[i].alert.budgetId;
      assert budgets[k] == init[k];
    }
  }

  // ---------------------------------------------------------------------
  // The scheduler

  /** ReminderScheduler, with the sends it has made so far. */
  class ReminderScheduler {
    var sent: seq<Send>

    constructor()
      ensures sent == []
    {
      sent := [];
    }

    /** scheduleBillReminders: one pass over the bills, in order. */
    method ScheduleBillReminders(bills: seq<Bill>, now: int)
      modifies this
      ensures sent == old(sent) + BillSends(bills, now)
    {
      for i := 0 to |bills|
        invariant sent == old(sent) + BillSends(bills[..i], now)
      {
        var bill := bills[i];
        var reminderDate := ReminderTime(bill);
        if reminderDate.Some? && reminderDate.value > now && !bill.reminderSent {
          var reminder := ReminderFor(bill, reminderDate.value);
          sent := sent + [BillReminderSent(reminder)];
        }
        assert bills[..i + 1][..i] == bills[..i] && bills[..i + 1][i] == bill;
        assert BillSends(bills[..i + 1], now) == BillSends(bills[..i], now) + BillStep(bill, now);
      }
      assert bills[..|bills|] == bills;
    }

    /** scheduleBudgetAlerts: one pass over the budgets, in order. */
    method ScheduleBudgetAlerts(budgets: seq<Budget>, now: int)
      modifies this
      ensures sent == old(sent) + BudgetSends(budgets, now)
    {
      for i := 0 to |budgets|
        invariant sent == old(sent) + BudgetSends(budgets[..i], now)
      {
        var budget := budgets[i];
        var spentPercent := SpentPercent(budget.spent, budget.amount);
        if AtLeast(spentPercent, 80.0) && !budget.alertSent {
          var alert := AlertFor(budget, now);
          sent := sent + [BudgetAlertSent(alert)];
        }
        assert budgets[..i + 1][..i] == budgets[..i] && budgets[..i + 1][i] == budget;
        assert BudgetSends(budgets[..i + 1], now) == BudgetSends(budgets[..i], now) + BudgetStep(budget, now);
      }
      assert budgets[..|budgets|] == budgets;
    }
  }
}

/** What one turn of the daily cycle announces and stores, with any saves failing, said without the functions that
    compute it. */
module MorosidadTurn {
  import opened Wrappers
  import opened BillingDate
  import opened Morosidad

  function Delay(inv: Invoice, today: ValidDate): int {
    if inv.dueDate.Some? then -DaysBetween(inv.dueDate.value, today) else 0
  }

  /** An advance reminder is due from some days before the due date up to that date, an overdue one from some days
      after it on, each until it is marked as sent. */
  predicate ReminderDue(inv: Invoice, kind: Kind, settings: Settings, today: ValidDate) {
    inv.status in {PENDING_PAYMENT, EN_GRACIA, VENCIDA} && inv.dueDate.Some?
    && var untilDue := DaysBetween(inv.dueDate.value, today);
       match kind
       case ADVANCE => inv.advanceSentAt.None? && 0 <= untilDue <= settings.advanceDaysBeforeDue
       case OVERDUE => inv.overdueSentAt.None? && untilDue < 0 && -untilDue >= settings.reminderDaysAfterDue
  }

  predicate IsOverdue(inv: Invoice, today: ValidDate) {
    inv.status in {PENDING_PAYMENT, EN_GRACIA, VENCIDA} && inv.dueDate.Some?
    && DaysBetween(inv.dueDate.value, today) < 0
  }

  function TargetStatus(inv: Invoice, contracts: Contracts, settings: Settings, today: ValidDate): InvoiceStatus {
    if Delay(inv, today) >= Grace(inv.contractId, contracts, settings) then VENCIDA else EN_GRACIA
  }

  /** Whatever saves fail, a reminder goes out if and only if it is due. */
  lemma TurnAnnouncesExactly(inv: Invoice, contracts: Contracts, settings: Settings, today: ValidDate, now: int,
                             saveFails: set<nat>, kind: Kind)
    ensures RowTurn(inv, contracts, settings, today, now, saveFails).reminder == Some(kind)
      <==> ReminderDue(inv, kind, settings, today)
  {
    hide DaysBetween, PlusDays, Grace;
  }

  /** A row whose save fails stays as it was. Otherwise the reminder announced is marked with the time; an overdue
      invoice holds its days, the status they give it, and from the first change of it the grace period; and the
      rest of the row is not touched. */
  lemma StoredExactly(inv: Invoice, contracts: Contracts, settings: Settings, today: ValidDate, now: int,
                      saveFails: set<nat>)
    ensures var stored := RowTurn(inv, contracts, settings, today, now, saveFails).stored;
      if inv.id in saveFails then stored == inv
      else
        && (stored.id, stored.contractId, stored.dueDate) == (inv.id, inv.contractId, inv.dueDate)
        && stored.advanceSentAt == (if ReminderDue(inv, ADVANCE, settings, today) then Some(now) else inv.advanceSentAt)
        && stored.overdueSentAt == (if ReminderDue(inv, OVERDUE, settings, today) then Some(now) else inv.overdueSentAt)
        && if IsOverdue(inv, today) then
             && stored.daysOverdue == Delay(inv, today)
             && stored.status == TargetStatus(inv, contracts, settings, today)
             && (stored.graceStart, stored.graceEnd) ==
                  if inv.graceStart.None? && inv.status != stored.status
                  then (Some(PlusDays(inv.dueDate.value, 1)),
                        Some(PlusDays(inv.dueDate.value, Grace(inv.contractId, contracts, settings))))
                  else (inv.graceStart, inv.graceEnd)
           else
             (stored.daysOverdue, stored.status, stored.graceStart, stored.graceEnd)
             == (inv.daysOverdue, inv.status, inv.graceStart, inv.graceEnd)
  {
    hide DaysBetween, PlusDays, Grace;
  }

  /** Something about the invoice is to be saved today. */
  predicate NeedsSave(inv: Invoice, contracts: Contracts, settings: Settings, today: ValidDate) {
    ReminderDue(inv, ADVANCE, settings, today) || ReminderDue(inv, OVERDUE, settings, today)
    || (IsOverdue(inv, today)
        && (inv.daysOverdue != Delay(inv, today) || inv.status != TargetStatus(inv, contracts, settings, today)))
  }

  lemma FailedExactly(inv: Invoice, contracts: Contracts, settings: Settings, today: ValidDate, now: int,
                      saveFails: set<nat>)
    ensures RowTurn(inv, contracts, settings, today, now, saveFails).failed <==>
      inv.id in saveFails && NeedsSave(inv, contracts, settings, today)
  {
    hide DaysBetween, PlusDays, Grace;
  }
}

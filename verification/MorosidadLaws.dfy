/** What the delinquency cycle, the operator's list, payments and the manual
    operations keep together. */
module MorosidadLaws {
  import opened Wrappers
  import opened BillingDate
  import opened SuspensionHistory
  import opened Morosidad
  import opened MorosidadTurn

  // --- Whom the cycle cuts ------------------------------------------------------------

  /** The longest delay among the overdue invoices of a contract, 0 when it has none. */
  function MaxDelay(rows: seq<Invoice>, c: nat, today: ValidDate): int {
    if rows == [] then 0
    else
      var before := MaxDelay(rows[..|rows| - 1], c, today);
      var last := rows[|rows| - 1];
      if OverdueFor(last, c, today) && Delay(last, today) > before then Delay(last, today) else before
  }

  /** `MaxDelay` is the maximum it is named after. */
  lemma {:induction false} MaxDelayIsMaximum(rows: seq<Invoice>, c: nat, today: ValidDate)
    ensures MaxDelay(rows, c, today) >= 0
    ensures forall i :: 0 <= i < |rows| && OverdueFor(rows[i], c, today) ==>
      Delay(rows[i], today) <= MaxDelay(rows, c, today)
    ensures MaxDelay(rows, c, today) > 0 ==>
      exists i :: 0 <= i < |rows| && OverdueFor(rows[i], c, today) && Delay(rows[i], today) == MaxDelay(rows, c, today)
    ensures HasOverdue(rows, c, today) <==> MaxDelay(rows, c, today) > 0
  {
    hide DaysBetween;
    if rows != [] {
      var front := rows[..|rows| - 1];
      MaxDelayIsMaximum(front, c, today);
      if MaxDelay(front, c, today) > 0 {
        var i :| 0 <= i < |front| && OverdueFor(front[i], c, today)
          && Delay(front[i], today) == MaxDelay(front, c, today);
        assert rows[i] == front[i];
      }
    }
  }

  ghost predicate DueForCut(rows: seq<Invoice>, c: nat, contracts: Contracts, settings: Settings, today: ValidDate) {
    IsActive(Some(c), contracts) && MaxDelay(rows, c, today) > 0
    && MaxDelay(rows, c, today) >= Grace(Some(c), contracts, settings)
  }

  lemma TurnCuts(inv: Invoice, contracts: Contracts, settings: Settings, today: ValidDate, now: int, c: nat)
    ensures var turn := RowTurn(inv, contracts, settings, today, now, {});
      turn.cut.Some? && inv.contractId == Some(c) <==>
        OverdueFor(inv, c, today) && IsActive(Some(c), contracts)
          && Delay(inv, today) >= Grace(Some(c), contracts, settings)
    ensures var turn := RowTurn(inv, contracts, settings, today, now, {});
      turn.cut.Some? ==> inv.contractId.Some? && turn.cut.value == Delay(inv, today)
    ensures OverdueFor(inv, c, today) ==> Delay(inv, today) > 0
  {
    hide DaysBetween, Aged;
  }

  /** Without failing saves the cycle cuts exactly the active contracts whose longest delay has
      reached their grace, each once and with that delay. */
  lemma {:induction false} CutsExactly(rows: seq<Invoice>, contracts: Contracts, settings: Settings, today: ValidDate,
                                       now: int, c: nat)
    ensures var cuts := PassOver(rows, contracts, settings, today, now, {}).cuts;
      && (c in cuts.worst <==> DueForCut(rows, c, contracts, settings, today))
      && (c in cuts.worst ==> cuts.worst[c].daysOverdue == MaxDelay(rows, c, today))
  {
    hide RowTurn, Grace, IsActive, OverdueFor, Delay;
    if rows != [] {
      var front, last := rows[..|rows| - 1], rows[|rows| - 1];
      CutsExactly(front, contracts, settings, today, now, c);
      TurnCuts(last, contracts, settings, today, now, c);
      MaxDelayIsMaximum(front, c, today);
    }
  }

  /** The invoice has its contract cut today, although saves may fail. */
  predicate CutBy(inv: Invoice, c: nat, contracts: Contracts, settings: Settings, today: ValidDate,
                  saveFails: set<nat>)
  {
    OverdueFor(inv, c, today) && Delay(inv, today) >= Grace(Some(c), contracts, settings)
    && (inv.id !in saveFails || !NeedsSave(inv, contracts, settings, today))
  }

  lemma TurnCutsExactly(inv: Invoice, contracts: Contracts, settings: Settings, today: ValidDate, now: int,
                        saveFails: set<nat>, c: nat)
    ensures var turn := RowTurn(inv, contracts, settings, today, now, saveFails);
      turn.cut.Some? && inv.contractId == Some(c) <==>
        CutBy(inv, c, contracts, settings, today, saveFails) && IsActive(Some(c), contracts)
    ensures var turn := RowTurn(inv, contracts, settings, today, now, saveFails);
      turn.cut.Some? ==> inv.contractId.Some? && turn.cut.value == Delay(inv, today)
  {
    hide DaysBetween, PlusDays, Grace;
  }

  /** The longest delay among the invoices that have the contract cut. */
  ghost predicate WorstOf(rows: seq<Invoice>, c: nat, contracts: Contracts, settings: Settings, today: ValidDate,
                          saveFails: set<nat>, days: int)
  {
    && (exists i ::
          0 <= i < |rows| && CutBy(rows[i], c, contracts, settings, today, saveFails) && Delay(rows[i], today) == days)
    && (forall i ::
          0 <= i < |rows| && CutBy(rows[i], c, contracts, settings, today, saveFails) ==> Delay(rows[i], today) <= days)
  }

  /** Whatever saves fail, the cycle cuts exactly the active contracts with an overdue invoice that has reached
      its grace and whose save goes through or is not needed, with the longest delay of such an invoice. */
  lemma {:induction false} CutsUnderFailures(rows: seq<Invoice>, contracts: Contracts, settings: Settings,
                                             today: ValidDate, now: int, saveFails: set<nat>, c: nat)
    ensures var cuts := PassOver(rows, contracts, settings, today, now, saveFails).cuts;
      && (c in cuts.worst <==>
            IsActive(Some(c), contracts)
            && exists i :: 0 <= i < |rows| && CutBy(rows[i], c, contracts, settings, today, saveFails))
      && (c in cuts.worst ==> WorstOf(rows, c, contracts, settings, today, saveFails, cuts.worst[c].daysOverdue))
  {
    hide RowTurn, CutBy, Delay, IsActive;
    if rows != [] {
      var n := |rows| - 1;
      CutsUnderFailures(rows[..n], contracts, settings, today, now, saveFails, c);
      TurnCutsExactly(rows[n], contracts, settings, today, now, saveFails, c);
      assert forall i :: 0 <= i < n ==> rows[..n][i] == rows[i];
    }
  }

  /** The list of contracts to cut names each contract once. */
  ghost predicate Listed(cuts: ToSuspend) {
    && (forall c :: c in cuts.order <==> c in cuts.worst)
    && (forall i, j :: 0 <= i < j < |cuts.order| ==> cuts.order[i] != cuts.order[j])
  }

  lemma NotedKeepsListed(cuts: ToSuspend, c: nat, days: int, invoiceId: nat)
    requires Listed(cuts)
    ensures Listed(Noted(cuts, c, days, invoiceId))
  {}

  lemma {:induction false} OrderListsCuts(rows: seq<Invoice>, contracts: Contracts, settings: Settings,
                                          today: ValidDate, now: int, saveFails: set<nat>)
    ensures Listed(PassOver(rows, contracts, settings, today, now, saveFails).cuts)
  {
    hide RowTurn, Noted;
    if rows == [] {
      assert Listed(ToSuspend([], map[]));
    } else {
      hide Listed;
      var front, last := rows[..|rows| - 1], rows[|rows| - 1];
      OrderListsCuts(front, contracts, settings, today, now, saveFails);
      var turn := RowTurn(last, contracts, settings, today, now, saveFails);
      if turn.cut.Some? && last.contractId.Some? {
        NotedKeepsListed(PassOver(front, contracts, settings, today, now, saveFails).cuts, last.contractId.value,
                         turn.cut.value, last.id);
      }
    }
  }

  /** The row has this active contract cut. */
  ghost predicate CutsAt(rows: seq<Invoice>, i: nat, c: nat, contracts: Contracts, settings: Settings,
                         today: ValidDate, saveFails: set<nat>)
  {
    i < |rows| && IsActive(Some(c), contracts) && CutBy(rows[i], c, contracts, settings, today, saveFails)
  }

  /** Its invoice with the longest delay, the first of several. */
  ghost predicate FirstWorst(rows: seq<Invoice>, i: nat, c: nat, worst: Worst, contracts: Contracts,
                             settings: Settings, today: ValidDate, saveFails: set<nat>)
  {
    CutsAt(rows, i, c, contracts, settings, today, saveFails)
    && worst == Worst(Delay(rows[i], today), rows[i].id)
    && (forall k: nat :: CutsAt(rows, k, c, contracts, settings, today, saveFails) ==>
          Delay(rows[k], today) <= worst.daysOverdue && (k < i ==> Delay(rows[k], today) < worst.daysOverdue))
  }

  lemma CutsAtFront(rows: seq<Invoice>, i: nat, c: nat, contracts: Contracts, settings: Settings, today: ValidDate,
                    saveFails: set<nat>)
    requires i < |rows| - 1
    ensures CutsAt(rows, i, c, contracts, settings, today, saveFails)
      <==> CutsAt(rows[..|rows| - 1], i, c, contracts, settings, today, saveFails)
  {
    hide CutBy, IsActive;
  }

  /** The cut of a contract names its most delayed invoice, the first when several are equally late. */
  lemma {:induction false} WorstIsFirst(rows: seq<Invoice>, contracts: Contracts, settings: Settings, today: ValidDate,
                                        now: int, saveFails: set<nat>, c: nat)
    ensures var worst := PassOver(rows, contracts, settings, today, now, saveFails).cuts.worst;
      && (c in worst ==> exists i: nat :: FirstWorst(rows, i, c, worst[c], contracts, settings, today, saveFails))
      && (c !in worst ==> forall i: nat :: !CutsAt(rows, i, c, contracts, settings, today, saveFails))
  {
    hide RowTurn, CutBy, Delay, IsActive;
    if rows != [] {
      var n := |rows| - 1;
      WorstIsFirst(rows[..n], contracts, settings, today, now, saveFails, c);
      TurnCutsExactly(rows[n], contracts, settings, today, now, saveFails, c);
      forall i: nat | i < n
        ensures CutsAt(rows, i, c, contracts, settings, today, saveFails)
          <==> CutsAt(rows[..n], i, c, contracts, settings, today, saveFails)
      {
        CutsAtFront(rows, i, c, contracts, settings, today, saveFails);
      }
      var before := PassOver(rows[..n], contracts, settings, today, now, saveFails).cuts.worst;
      var worst := PassOver(rows, contracts, settings, today, now, saveFails).cuts.worst;
      if c in worst {
        if c in before && worst[c] == before[c] {
          var i: nat :| FirstWorst(rows[..n], i, c, before[c], contracts, settings, today, saveFails);
          assert FirstWorst(rows, i, c, worst[c], contracts, settings, today, saveFails);
        } else {
          assert FirstWorst(rows, n, c, worst[c], contracts, settings, today, saveFails);
        }
      }
    }
  }

  /** One contract was to be cut before any row had the other cut. */
  ghost predicate CutSooner(rows: seq<Invoice>, c: nat, d: nat, contracts: Contracts, settings: Settings,
                            today: ValidDate, saveFails: set<nat>)
  {
    exists i: nat ::
      CutsAt(rows, i, c, contracts, settings, today, saveFails)
      && forall k: nat :: k <= i ==> !CutsAt(rows, k, d, contracts, settings, today, saveFails)
  }

  lemma SoonerStays(rows: seq<Invoice>, c: nat, d: nat, contracts: Contracts, settings: Settings, today: ValidDate,
                    saveFails: set<nat>)
    requires rows != [] && CutSooner(rows[..|rows| - 1], c, d, contracts, settings, today, saveFails)
    ensures CutSooner(rows, c, d, contracts, settings, today, saveFails)
  {
    hide CutsAt;
    var front := rows[..|rows| - 1];
    var i: nat :| CutsAt(front, i, c, contracts, settings, today, saveFails)
      && forall k: nat :: k <= i ==> !CutsAt(front, k, d, contracts, settings, today, saveFails);
    InRange(front, i, c, contracts, settings, today, saveFails);
    CutsAtFront(rows, i, c, contracts, settings, today, saveFails);
    forall k: nat | k <= i ensures !CutsAt(rows, k, d, contracts, settings, today, saveFails) {
      CutsAtFront(rows, k, d, contracts, settings, today, saveFails);
    }
  }

  lemma InRange(rows: seq<Invoice>, i: nat, c: nat, contracts: Contracts, settings: Settings, today: ValidDate,
                saveFails: set<nat>)
    requires CutsAt(rows, i, c, contracts, settings, today, saveFails)
    ensures i < |rows|
  {}

  /** Contracts are cut in the order in which the pass comes upon the first invoice that has each cut. */
  lemma {:induction false} CutInOrder(rows: seq<Invoice>, contracts: Contracts, settings: Settings, today: ValidDate,
                                      now: int, saveFails: set<nat>)
    ensures var order := PassOver(rows, contracts, settings, today, now, saveFails).cuts.order;
      forall i, j :: 0 <= i < j < |order| ==>
        CutSooner(rows, order[i], order[j], contracts, settings, today, saveFails)
  {
    hide RowTurn, CutsAt, CutSooner;
    if rows != [] {
      var n := |rows| - 1;
      CutInOrder(rows[..n], contracts, settings, today, now, saveFails);
      OrderListsCuts(rows[..n], contracts, settings, today, now, saveFails);
      var before := PassOver(rows[..n], contracts, settings, today, now, saveFails).cuts;
      var order := PassOver(rows, contracts, settings, today, now, saveFails).cuts.order;
      assert order == before.order || (|order| > 0 && order == before.order + [order[|order| - 1]]
                                       && order[|order| - 1] !in before.worst);
      forall i, j | 0 <= i < j < |order|
        ensures CutSooner(rows, order[i], order[j], contracts, settings, today, saveFails)
      {
        if j < |before.order| {
          SoonerStays(rows, order[i], order[j], contracts, settings, today, saveFails);
        } else {
          NewIsLater(rows, order[i], order[j], contracts, settings, today, now, saveFails);
        }
      }
    }
  }

  lemma NewIsLater(rows: seq<Invoice>, c: nat, d: nat, contracts: Contracts, settings: Settings, today: ValidDate,
                   now: int, saveFails: set<nat>)
    requires rows != []
    requires var worst := PassOver(rows[..|rows| - 1], contracts, settings, today, now, saveFails).cuts.worst;
      c in worst && d !in worst
    ensures CutSooner(rows, c, d, contracts, settings, today, saveFails)
  {
    hide PassOver, CutsAt;
    var front := rows[..|rows| - 1];
    WorstIsFirst(front, contracts, settings, today, now, saveFails, c);
    WorstIsFirst(front, contracts, settings, today, now, saveFails, d);
    var worst := PassOver(front, contracts, settings, today, now, saveFails).cuts.worst;
    var i: nat :| FirstWorst(front, i, c, worst[c], contracts, settings, today, saveFails);
    assert CutSooner(front, c, d, contracts, settings, today, saveFails);
    SoonerStays(rows, c, d, contracts, settings, today, saveFails);
  }

  lemma {:induction false} GroupDelay(rows: seq<Invoice>, c: nat, today: ValidDate)
    ensures var (days, earliest) := Longest(Group(rows, c, today), today);
      days == MaxDelay(rows, c, today) && DaysBetween(earliest, today) == -days
    ensures Group(rows, c, today) != [] <==> MaxDelay(rows, c, today) > 0
  {
    hide DaysBetween;
    if rows == [] {
      assert DaysBetween(today, today) == 0 by { SameDay(today); }
    } else {
      GroupDelay(rows[..|rows| - 1], c, today);
      var front, group := Group(rows[..|rows| - 1], c, today), Group(rows, c, today);
      MaxDelayIsMaximum(rows[..|rows| - 1], c, today);
      if OverdueFor(rows[|rows| - 1], c, today) {
        assert group[..|group| - 1] == front;
      } else {
        assert group == front;
      }
    }
  }

  lemma SameDay(d: ValidDate)
    ensures DaysBetween(d, d) == 0
  {}

  /** The contracts the cycle cuts on a day are the active contracts the operator's list schedules
      for that day or earlier, with the same days overdue. */
  lemma CycleAgreesWithList(rows: seq<Invoice>, contracts: Contracts, settings: Settings, today: ValidDate, now: int,
                            c: nat)
    ensures var cuts := PassOver(rows, contracts, settings, today, now, {}).cuts;
      var items := Delinquents(rows, contracts, settings, today);
      && (c in cuts.worst <==>
            c in items && items[c].contractStatus == ACTIVE
              && DaysBetween(items[c].scheduledSuspensionDate, today) <= 0)
      && (c in cuts.worst ==> items[c].daysOverdue == cuts.worst[c].daysOverdue)
  {
    hide DaysBetween, Group, Longest, PassOver, MaxDelay;
    CutsExactly(rows, contracts, settings, today, now, c);
    GroupDelay(rows, c, today);
    var (days, earliest) := Longest(Group(rows, c, today), today);
    PlusDaysShifts(earliest, Grace(Some(c), contracts, settings), today);
  }

  lemma {:induction false} OnlyOverdueAreCut(rows: seq<Invoice>, contracts: Contracts, settings: Settings,
                                             today: ValidDate, now: int, saveFails: set<nat>, c: nat)
    ensures c in PassOver(rows, contracts, settings, today, now, saveFails).cuts.worst ==> HasOverdue(rows, c, today)
  {
    hide DaysBetween, Aged, Grace;
    if rows != [] {
      OnlyOverdueAreCut(rows[..|rows| - 1], contracts, settings, today, now, saveFails, c);
      if HasOverdue(rows[..|rows| - 1], c, today) {
        var i :| 0 <= i < |rows| - 1 && OverdueFor(rows[..|rows| - 1][i], c, today);
        assert OverdueFor(rows[i], c, today);
      }
    }
  }

  /** A contract a payment restores is not cut by a cycle of the same day, whatever fails in it. */
  lemma RestoredIsNotCut(office: Office, c: nat, today: ValidDate, recorded: bool, settings: Settings, now: int,
                         saveFails: set<nat>)
    requires Settled(office, c, today)
    ensures var after := ReactivatedIfSettled(office, c, today, recorded).0;
      c !in PassOver(after.invoices, after.contracts, settings, today, now, saveFails).cuts.worst
  {
    hide PassOver, HasOverdue;
    var after := ReactivatedIfSettled(office, c, today, recorded).0;
    OnlyOverdueAreCut(office.invoices, after.contracts, settings, today, now, saveFails, c);
  }

  // --- What is counted -------------------------------------------------------------------

  function CountKind(reminders: seq<Reminder>, kind: Kind): nat {
    if reminders == [] then 0
    else CountKind(reminders[..|reminders| - 1], kind) + if reminders[|reminders| - 1].kind == kind then 1 else 0
  }

  lemma CountPush(reminders: seq<Reminder>, r: Reminder, kind: Kind)
    ensures CountKind(reminders + [r], kind) == CountKind(reminders, kind) + if r.kind == kind then 1 else 0
  {
    assert (reminders + [r])[..|reminders|] == reminders;
  }

  lemma TurnFails(inv: Invoice, contracts: Contracts, settings: Settings, today: ValidDate, now: int,
                  saveFails: set<nat>)
    ensures RowTurn(inv, contracts, settings, today, now, saveFails).failed ==> inv.id in saveFails
  {
    hide DaysBetween, Aged, Grace;
  }

  /** Without failing saves the counters of reminders are the numbers of reminders announced, by kind. */
  lemma {:induction false} RemindersAreCounted(rows: seq<Invoice>, contracts: Contracts, settings: Settings,
                                               today: ValidDate, now: int)
    ensures var p := PassOver(rows, contracts, settings, today, now, {});
      p.advance == CountKind(p.reminders, ADVANCE) && p.overdue == CountKind(p.reminders, OVERDUE) && p.failed == 0
  {
    hide RowTurn, Noted;
    if rows != [] {
      var front, last := rows[..|rows| - 1], rows[|rows| - 1];
      RemindersAreCounted(front, contracts, settings, today, now);
      TurnFails(last, contracts, settings, today, now, {});
      var turn := RowTurn(last, contracts, settings, today, now, {});
      if turn.reminder.Some? {
        var q := PassOver(front, contracts, settings, today, now, {});
        CountPush(q.reminders, Reminder(last.id, turn.reminder.value), ADVANCE);
        CountPush(q.reminders, Reminder(last.id, turn.reminder.value), OVERDUE);
      }
    }
  }

  ghost predicate DueAmong(rows: seq<Invoice>, r: Reminder, settings: Settings, today: ValidDate) {
    exists i :: 0 <= i < |rows| && rows[i].id == r.invoiceId && ReminderDue(rows[i], r.kind, settings, today)
  }

  lemma DueAmongLast(rows: seq<Invoice>, r: Reminder, settings: Settings, today: ValidDate)
    requires rows != []
    ensures var last := rows[|rows| - 1];
      DueAmong(rows, r, settings, today) <==>
        DueAmong(rows[..|rows| - 1], r, settings, today)
        || (last.id == r.invoiceId && ReminderDue(last, r.kind, settings, today))
  {
    hide ReminderDue;
    var front := rows[..|rows| - 1];
    if DueAmong(front, r, settings, today) {
      var i :| 0 <= i < |front| && front[i].id == r.invoiceId && ReminderDue(front[i], r.kind, settings, today);
      assert rows[i] == front[i];
    }
    if i :| 0 <= i < |rows| && rows[i].id == r.invoiceId && ReminderDue(rows[i], r.kind, settings, today) {
      if i < |front| { assert front[i] == rows[i]; }
    }
  }

  lemma {:induction false} PassAnnounces(rows: seq<Invoice>, contracts: Contracts, settings: Settings,
                                         today: ValidDate, now: int, saveFails: set<nat>, r: Reminder)
    ensures r in PassOver(rows, contracts, settings, today, now, saveFails).reminders
      <==> DueAmong(rows, r, settings, today)
  {
    hide RowTurn, Noted, ReminderDue, DueAmong;
    if rows == [] {
      NothingDue(r, settings, today);
    } else {
      var last := rows[|rows| - 1];
      PassAnnounces(rows[..|rows| - 1], contracts, settings, today, now, saveFails, r);
      TurnAnnouncesExactly(last, contracts, settings, today, now, saveFails, r.kind);
      DueAmongLast(rows, r, settings, today);
    }
  }

  lemma NothingDue(r: Reminder, settings: Settings, today: ValidDate)
    ensures !DueAmong([], r, settings, today)
  {}

  /** Whatever fails in it, a cycle announces exactly the reminders that are due. */
  lemma CycleAnnouncesExactly(office: Office, settings: Settings, today: ValidDate, now: int, saveFails: set<nat>,
                              answers: map<nat, Answer>, r: Reminder)
    ensures var after := Cycled(office, settings, today, now, saveFails, answers).reminders;
      office.reminders <= after
      && (r in after[|office.reminders|..] <==> DueAmong(office.invoices, r, settings, today))
  {
    hide PassOver, CutAll, DueAmong;
    var p := PassOver(office.invoices, office.contracts, settings, today, now, saveFails);
    CutAllKeeps(office.(invoices := p.invoices, reminders := office.reminders + p.reminders), p.cuts.order, answers);
    PassAnnounces(office.invoices, office.contracts, settings, today, now, saveFails, r);
    assert (office.reminders + p.reminders)[|office.reminders|..] == p.reminders;
  }

  /** How many rows have a property. */
  ghost function CountRows(rows: seq<Invoice>, p: Invoice -> bool): nat {
    if rows == [] then 0 else CountRows(rows[..|rows| - 1], p) + if p(rows[|rows| - 1]) then 1 else 0
  }

  /** Whatever saves fail, the counters are the numbers of invoices whose reminder was due and marked, and of those
      whose save was needed and failed; one reminder is announced per invoice and kind due. */
  lemma {:induction false} CountersExactly(rows: seq<Invoice>, contracts: Contracts, settings: Settings,
                                           today: ValidDate, now: int, saveFails: set<nat>)
    ensures var p := PassOver(rows, contracts, settings, today, now, saveFails);
      && p.advance == CountRows(rows, (r: Invoice) => ReminderDue(r, ADVANCE, settings, today) && r.id !in saveFails)
      && p.overdue == CountRows(rows, (r: Invoice) => ReminderDue(r, OVERDUE, settings, today) && r.id !in saveFails)
      && p.failed == CountRows(rows, (r: Invoice) => r.id in saveFails && NeedsSave(r, contracts, settings, today))
      && CountKind(p.reminders, ADVANCE) == CountRows(rows, (r: Invoice) => ReminderDue(r, ADVANCE, settings, today))
      && CountKind(p.reminders, OVERDUE) == CountRows(rows, (r: Invoice) => ReminderDue(r, OVERDUE, settings, today))
  {
    hide RowTurn, Noted, ReminderDue, NeedsSave;
    if rows != [] {
      var front, last := rows[..|rows| - 1], rows[|rows| - 1];
      CountersExactly(front, contracts, settings, today, now, saveFails);
      TurnAnnouncesExactly(last, contracts, settings, today, now, saveFails, ADVANCE);
      TurnAnnouncesExactly(last, contracts, settings, today, now, saveFails, OVERDUE);
      FailedExactly(last, contracts, settings, today, now, saveFails);
      DueNeedsSave(last, contracts, settings, today);
      var turn := RowTurn(last, contracts, settings, today, now, saveFails);
      if turn.reminder.Some? {
        var q := PassOver(front, contracts, settings, today, now, saveFails);
        CountPush(q.reminders, Reminder(last.id, turn.reminder.value), ADVANCE);
        CountPush(q.reminders, Reminder(last.id, turn.reminder.value), OVERDUE);
      }
    }
  }

  lemma DueNeedsSave(inv: Invoice, contracts: Contracts, settings: Settings, today: ValidDate)
    ensures ReminderDue(inv, ADVANCE, settings, today) || ReminderDue(inv, OVERDUE, settings, today) ==>
      NeedsSave(inv, contracts, settings, today)
  {}

  function Count(order: seq<nat>, answers: map<nat, Answer>, answer: Answer): nat {
    if order == [] then 0
    else
      var last := AnswerFor(answers, order[|order| - 1]);
      Count(order[..|order| - 1], answers, answer) + if last == answer then 1 else 0
  }

  /** Among the contracts to cut, exactly those whose service is cut become suspended, their episode saved or
      not; no other contract changes. */
  lemma {:induction false} CutTakesEffect(office: Office, order: seq<nat>, answers: map<nat, Answer>, c: nat)
    requires c in office.contracts
    ensures var after := CutAll(office, order, answers).contracts;
      && c in after
      && after[c].status ==
           if c in order && (c in answers ==> answers[c] in {Applied, Unrecorded}) then SUSPENDED
           else office.contracts[c].status
  {
    hide Cut;
    if order != [] {
      var front, last := order[..|order| - 1], order[|order| - 1];
      CutTakesEffect(office, front, answers, c);
      OneCut(CutAll(office, front, answers), last, AnswerFor(answers, last), c);
      assert order == front + [last];
    }
  }

  lemma OneCut(office: Office, d: nat, answer: Answer, c: nat)
    requires c in office.contracts
    ensures var after := Cut(office, d, answer).contracts;
      && c in after
      && after[c].status == if c == d && answer in {Applied, Unrecorded} then SUSPENDED else office.contracts[c].status
  {
    hide Opened;
  }

  /** The counter of contracts suspended is the number of those suspended if and only if as many devices were
      offline as episodes failed to be saved: the first are counted and the second are not. */
  lemma {:induction false} CounterExactly(order: seq<nat>, answers: map<nat, Answer>)
    ensures |order| - RaisedCount(order, answers) == Count(order, answers, Applied) + Count(order, answers, Offline)
    ensures |order| - RaisedCount(order, answers) == Count(order, answers, Applied) + Count(order, answers, Unrecorded)
      <==> Count(order, answers, Offline) == Count(order, answers, Unrecorded)
  {
    if order != [] { CounterExactly(order[..|order| - 1], answers); }
  }

  // --- The grace period ---------------------------------------------------------------------

  /** An invoice that ages for the first time gets its grace period: from the first day on which it is
      overdue up to the first day on which it is VENCIDA. */
  lemma GracePeriodExactly(inv: Invoice, contracts: Contracts, settings: Settings, today: ValidDate, now: int,
                           day: ValidDate)
    requires inv.Open() && inv.dueDate.Some? && Delay(inv, today) > 0 && inv.graceStart.None?
    requires RowTurn(inv, contracts, settings, today, now, {}).stored.graceStart.Some?
    ensures var stored := RowTurn(inv, contracts, settings, today, now, {}).stored;
      && stored.graceEnd.Some?
      && (Delay(inv, day) > 0 <==> DaysBetween(day, stored.graceStart.value) >= 0)
      && (Delay(inv, day) >= Grace(inv.contractId, contracts, settings) <==>
            DaysBetween(day, stored.graceEnd.value) >= 0)
      && (stored.status == VENCIDA <==> DaysBetween(today, stored.graceEnd.value) >= 0)
  {
    hide DayNumber, DateOf, Grace;
    var grace := Grace(inv.contractId, contracts, settings);
    PlusDaysShifts(inv.dueDate.value, 1, day);
    PlusDaysShifts(inv.dueDate.value, grace, day);
    PlusDaysShifts(inv.dueDate.value, grace, today);
  }

  /** A pass never changes the number, the contract or the due date of an invoice, nor a grace period once
      it is set. */
  lemma TurnKeeps(inv: Invoice, contracts: Contracts, settings: Settings, today: ValidDate, now: int,
                  saveFails: set<nat>)
    ensures var stored := RowTurn(inv, contracts, settings, today, now, saveFails).stored;
      && stored.id == inv.id && stored.contractId == inv.contractId && stored.dueDate == inv.dueDate
      && (stored.Open() <==> inv.Open())
      && (inv.graceStart.Some? ==> stored.graceStart == inv.graceStart && stored.graceEnd == inv.graceEnd)
      && (inv.advanceSentAt.Some? ==> stored.advanceSentAt == inv.advanceSentAt)
      && (inv.overdueSentAt.Some? ==> stored.overdueSentAt == inv.overdueSentAt)
  {
    hide DaysBetween, PlusDays, Grace;
  }

  // --- The second run of a day -----------------------------------------------------------

  ghost predicate SameGrace(a: Contracts, b: Contracts) {
    a.Keys == b.Keys && forall c :: c in a ==> a[c].graceDaysOverride == b[c].graceDaysOverride
  }

  lemma TurnTwice(inv: Invoice, a: Contracts, b: Contracts, settings: Settings, today: ValidDate, now: int, later: int)
    requires SameGrace(a, b)
    ensures var once := RowTurn(inv, a, settings, today, now, {}).stored;
      var turn := RowTurn(once, b, settings, today, later, {});
      turn.stored == once && turn.reminder.None? && !turn.failed
  {
    hide DaysBetween, PlusDays;
    assert Grace(inv.contractId, a, settings) == Grace(inv.contractId, b, settings);
  }

  /** A second pass over what a pass stored changes no invoice and announces no reminder. */
  lemma {:induction false} PassTwice(rows: seq<Invoice>, a: Contracts, b: Contracts, settings: Settings,
                                     today: ValidDate, now: int, later: int)
    requires SameGrace(a, b)
    ensures var once := PassOver(rows, a, settings, today, now, {}).invoices;
      var p := PassOver(once, b, settings, today, later, {});
      p.invoices == once && p.reminders == [] && p.failed == 0
  {
    hide RowTurn, SameGrace, Noted;
    if rows != [] {
      var front := rows[..|rows| - 1];
      PassTwice(front, a, b, settings, today, now, later);
      TurnTwice(rows[|rows| - 1], a, b, settings, today, now, later);
      var once := PassOver(rows, a, settings, today, now, {}).invoices;
      assert once[..|once| - 1] == PassOver(front, a, settings, today, now, {}).invoices;
    }
  }

  lemma {:induction false} CutAllKeeps(office: Office, order: seq<nat>, answers: map<nat, Answer>)
    ensures var after := CutAll(office, order, answers);
      SameGrace(office.contracts, after.contracts) && after.invoices == office.invoices
        && after.reminders == office.reminders
  {
    if order != [] { CutAllKeeps(office, order[..|order| - 1], answers); }
  }

  /** Running the cycle again on the same day changes no invoice and sends no reminder. */
  lemma SecondRunIsQuiet(office: Office, settings: Settings, today: ValidDate, now: int, later: int,
                         answers: map<nat, Answer>, answers': map<nat, Answer>)
    ensures var once := Cycled(office, settings, today, now, {}, answers);
      var twice := Cycled(once, settings, today, later, {}, answers');
      twice.invoices == once.invoices && twice.reminders == once.reminders
  {
    hide PassOver, CutAll, SameGrace;
    var p := PassOver(office.invoices, office.contracts, settings, today, now, {});
    var aged := office.(invoices := p.invoices, reminders := office.reminders + p.reminders);
    CutAllKeeps(aged, p.cuts.order, answers);
    var once := Cycled(office, settings, today, now, {}, answers);
    PassTwice(office.invoices, office.contracts, once.contracts, settings, today, now, later);
    var q := PassOver(once.invoices, once.contracts, settings, today, later, {});
    CutAllKeeps(once.(invoices := q.invoices, reminders := once.reminders + q.reminders), q.cuts.order, answers');
  }

  /** A failing save is what it takes: a reminder just announced is announced again the same day if and
      only if saving its mark failed. */
  lemma RepeatsExactlyOnFailedSave(inv: Invoice, contracts: Contracts, settings: Settings, today: ValidDate, now: int,
                                   later: int, saveFails: set<nat>, kind: Kind)
    requires RowTurn(inv, contracts, settings, today, now, saveFails).reminder == Some(kind)
    ensures var stored := RowTurn(inv, contracts, settings, today, now, saveFails).stored;
      RowTurn(stored, contracts, settings, today, later, {}).reminder == Some(kind) <==> inv.id in saveFails
  {
    hide DaysBetween, PlusDays, Grace;
  }
}

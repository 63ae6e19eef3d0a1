/** Models src/modules/billing/morosidad.service.ts and the contract operations of
    src/modules/clients/clients.service.ts over the tables they share, with what counter sales
    (src/modules/pos/pos.service.ts), imports (src/modules/clients/import/clients-import.processor.ts) and
    resolved installation orders (src/modules/coordination/coordination.service.ts) do to a contract. Whether a save
    fails and what the network answers comes from outside. Of an invoice the columns of its ageing and
    its reminders are kept, of a contract its status and its grace. */
module Morosidad {
  import opened Wrappers
  import opened BillingDate
  import opened SuspensionHistory

  datatype InvoiceStatus = PENDING_PAYMENT | EN_GRACIA | VENCIDA | ISSUED | VOIDED

  datatype Invoice = Invoice(
    id: nat, status: InvoiceStatus, dueDate: Option<ValidDate>, contractId: Option<nat>, daysOverdue: int,
    graceStart: Option<ValidDate>, graceEnd: Option<ValidDate>, advanceSentAt: Option<int>, overdueSentAt: Option<int>)
  {
    predicate Open() { status == PENDING_PAYMENT || status == EN_GRACIA || status == VENCIDA }
  }

  datatype ContractStatus = PENDING_INSTALL | ACTIVE | SUSPENDED | TERMINATED

  datatype Contract = Contract(status: ContractStatus, graceDaysOverride: Option<int>)

  type Contracts = map<nat, Contract>

  datatype Settings = Settings(graceDays: int, reminderDaysAfterDue: int, advanceDaysBeforeDue: int)

  datatype Kind = ADVANCE | OVERDUE

  datatype Reminder = Reminder(invoiceId: nat, kind: Kind)

  datatype Office = Office(contracts: Contracts, invoices: seq<Invoice>, episodes: seq<Episode>,
                           reminders: seq<Reminder>)

  // --- One invoice in the daily cycle -----------------------------------------------

  /** `contract?.graceDaysOverride ?? settings.graceDaysBeforeSuspension`. */
  function Grace(contractId: Option<nat>, contracts: Contracts, settings: Settings): int {
    if contractId.Some? && contractId.value in contracts && contracts[contractId.value].graceDaysOverride.Some?
    then contracts[contractId.value].graceDaysOverride.value else settings.graceDays
  }

  predicate IsActive(contractId: Option<nat>, contracts: Contracts) {
    contractId.Some? && contractId.value in contracts && contracts[contractId.value].status == ACTIVE
  }

  /** An overdue invoice with its days counted and its status set for today. */
  function Aged(inv: Invoice, grace: int, today: ValidDate): Invoice
    requires inv.dueDate.Some?
  {
    var overdue := -DaysBetween(inv.dueDate.value, today);
    var target := if overdue >= grace then VENCIDA else EN_GRACIA;
    var counted := inv.(daysOverdue := overdue);
    if inv.status == target then counted
    else if inv.graceStart.Some? then counted.(status := target)
    else counted.(status := target, graceStart := Some(PlusDays(inv.dueDate.value, 1)),
                  graceEnd := Some(PlusDays(inv.dueDate.value, grace)))
  }

  /** What one turn of the loop does with an open invoice: the row as stored afterwards, the
      reminder announced, whether a save failed, and the days for which its contract is to be cut. */
  datatype Turn = Turn(stored: Invoice, reminder: Option<Kind>, failed: bool, cut: Option<int>)

  function TurnOf(inv: Invoice, contracts: Contracts, settings: Settings, today: ValidDate, now: int,
                  saveFails: bool): Turn
  {
    if inv.dueDate.None? then Turn(inv, None, false, None)
    else
      var untilDue := DaysBetween(inv.dueDate.value, today);
      if untilDue >= 0 then
        if inv.advanceSentAt.None? && untilDue <= settings.advanceDaysBeforeDue
        then Turn(if saveFails then inv else inv.(advanceSentAt := Some(now)), Some(ADVANCE), saveFails, None)
        else Turn(inv, None, false, None)
      else
        var grace := Grace(inv.contractId, contracts, settings);
        var aged := Aged(inv, grace, today);
        var cut := if -untilDue >= grace && IsActive(inv.contractId, contracts) then Some(-untilDue) else None;
        if inv.overdueSentAt.None? && -untilDue >= settings.reminderDaysAfterDue
        then if saveFails then Turn(inv, Some(OVERDUE), true, None)
             else Turn(aged.(overdueSentAt := Some(now)), Some(OVERDUE), false, cut)
        else if aged != inv && saveFails then Turn(inv, None, true, None)
        else Turn(aged, None, false, cut)
  }

  // --- The first loop: every open invoice -----------------------------------------------

  datatype Worst = Worst(daysOverdue: int, invoiceId: nat)

  /** The contracts to cut, in the order found, each with its worst invoice. */
  datatype ToSuspend = ToSuspend(order: seq<nat>, worst: map<nat, Worst>)

  function Noted(cuts: ToSuspend, c: nat, days: int, invoiceId: nat): ToSuspend {
    if c !in cuts.worst then ToSuspend(cuts.order + [c], cuts.worst[c := Worst(days, invoiceId)])
    else if days > cuts.worst[c].daysOverdue then cuts.(worst := cuts.worst[c := Worst(days, invoiceId)])
    else cuts
  }

  /** The state of the loop after the first rows. */
  datatype Pass = Pass(
    invoices: seq<Invoice>, reminders: seq<Reminder>, cuts: ToSuspend, advance: nat, overdue: nat, failed: nat)

  function PassStep(p: Pass, inv: Invoice, turn: Turn): Pass {
    Pass(p.invoices + [turn.stored],
         if turn.reminder.Some? then p.reminders + [Reminder(inv.id, turn.reminder.value)] else p.reminders,
         if turn.cut.Some? && inv.contractId.Some?
         then Noted(p.cuts, inv.contractId.value, turn.cut.value, inv.id) else p.cuts,
         if turn.reminder == Some(ADVANCE) && !turn.failed then p.advance + 1 else p.advance,
         if turn.reminder == Some(OVERDUE) && !turn.failed then p.overdue + 1 else p.overdue,
         if turn.failed then p.failed + 1 else p.failed)
  }

  /** What the loop does with a row: only open invoices are fetched. */
  function RowTurn(inv: Invoice, contracts: Contracts, settings: Settings, today: ValidDate, now: int,
                   saveFails: set<nat>): Turn
  {
    if inv.Open() then TurnOf(inv, contracts, settings, today, now, inv.id in saveFails)
    else Turn(inv, None, false, None)
  }

  function PassOver(rows: seq<Invoice>, contracts: Contracts, settings: Settings, today: ValidDate, now: int,
                    saveFails: set<nat>): (p: Pass)
    ensures |p.invoices| == |rows|
  {
    if rows == [] then Pass([], [], ToSuspend([], map[]), 0, 0, 0)
    else
      var inv := rows[|rows| - 1];
      PassStep(PassOver(rows[..|rows| - 1], contracts, settings, today, now, saveFails), inv,
               RowTurn(inv, contracts, settings, today, now, saveFails))
  }

  lemma NoRows(contracts: Contracts, settings: Settings, today: ValidDate, now: int, saveFails: set<nat>)
    ensures PassOver([], contracts, settings, today, now, saveFails) == Pass([], [], ToSuspend([], map[]), 0, 0, 0)
  {}

  lemma NextRow(rows: seq<Invoice>, i: nat, contracts: Contracts, settings: Settings, today: ValidDate, now: int,
                saveFails: set<nat>)
    requires i < |rows|
    ensures PassOver(rows[..i + 1], contracts, settings, today, now, saveFails) ==
      PassStep(PassOver(rows[..i], contracts, settings, today, now, saveFails), rows[i],
               RowTurn(rows[i], contracts, settings, today, now, saveFails))
  {
    hide RowTurn, PassStep;
    assert rows[..i + 1][..i] == rows[..i];
  }

  // --- The second loop: the contracts to cut -------------------------------------------------

  /** `Unrecorded`: the service is cut and the contract saved, but the save of the episode throws. */
  datatype Answer = Applied | Offline | Raised | Unrecorded

  predicate Throws(answer: Answer) { answer == Raised || answer == Unrecorded }

  function WithStatus(office: Office, c: nat, status: ContractStatus): Office
    requires c in office.contracts
  {
    office.(contracts := office.contracts[c := office.contracts[c].(status := status)])
  }

  /** A contract becomes suspended; `recorded` tells whether its episode is saved. */
  function SuspendedWith(office: Office, c: nat, recorded: bool): Office
    requires c in office.contracts
  {
    var cut := WithStatus(office, c, SUSPENDED);
    if recorded then cut.(episodes := Opened(office.episodes, c)) else cut
  }

  function Cut(office: Office, c: nat, answer: Answer): Office {
    if answer == Offline || answer == Raised || c !in office.contracts then office
    else SuspendedWith(office, c, answer == Applied)
  }

  function AnswerFor(answers: map<nat, Answer>, c: nat): Answer { if c in answers then answers[c] else Applied }

  function CutAll(office: Office, order: seq<nat>, answers: map<nat, Answer>): Office {
    if order == [] then office
    else Cut(CutAll(office, order[..|order| - 1], answers), order[|order| - 1], AnswerFor(answers, order[|order| - 1]))
  }

  function RaisedCount(order: seq<nat>, answers: map<nat, Answer>): nat {
    if order == [] then 0
    else RaisedCount(order[..|order| - 1], answers) + if Throws(AnswerFor(answers, order[|order| - 1])) then 1 else 0
  }

  function Cycled(office: Office, settings: Settings, today: ValidDate, now: int, saveFails: set<nat>,
                  answers: map<nat, Answer>): Office
  {
    var p := PassOver(office.invoices, office.contracts, settings, today, now, saveFails);
    CutAll(office.(invoices := p.invoices, reminders := office.reminders + p.reminders), p.cuts.order, answers)
  }

  // --- Payment, the operator's list, manual operations ------------------------------------------

  predicate OverdueFor(inv: Invoice, c: nat, today: ValidDate) {
    inv.Open() && inv.contractId == Some(c) && inv.dueDate.Some? && DaysBetween(inv.dueDate.value, today) < 0
  }

  predicate HasOverdue(rows: seq<Invoice>, c: nat, today: ValidDate) {
    exists i :: 0 <= i < |rows| && OverdueFor(rows[i], c, today)
  }

  function Reactivated(office: Office, c: nat, recorded: bool): Office
    requires c in office.contracts
  {
    var restored := WithStatus(office, c, ACTIVE);
    if recorded then restored.(episodes := Closed(office.episodes, c)) else restored
  }

  datatype Error = NotFound | WrongStatus | NetworkRefused | EpisodeNotSaved

  predicate Settled(office: Office, c: nat, today: ValidDate) {
    c in office.contracts && office.contracts[c].status == SUSPENDED && !HasOverdue(office.invoices, c, today)
  }

  /** A failure of the network is only logged here. */
  function ReactivatedIfSettled(office: Office, c: nat, today: ValidDate, recorded: bool)
    : (Office, Result<bool, Error>)
  {
    if !Settled(office, c, today) then (office, Ok(false))
    else (Reactivated(office, c, recorded), if recorded then Ok(true) else Err(EpisodeNotSaved))
  }

  datatype Item = Item(
    contractStatus: ContractStatus, effectiveGraceDays: int, daysOverdue: int, scheduledSuspensionDate: ValidDate,
    overdueInvoicesCount: nat)

  /** The overdue invoices of a contract. */
  function Group(rows: seq<Invoice>, c: nat, today: ValidDate): seq<Invoice> {
    if rows == [] then []
    else Group(rows[..|rows| - 1], c, today) +
         if OverdueFor(rows[|rows| - 1], c, today) then [rows[|rows| - 1]] else []
  }

  /** The longest delay of a group and the date it was due. */
  function Longest(group: seq<Invoice>, today: ValidDate): (int, ValidDate) {
    if group == [] then (0, today)
    else
      var (days, earliest) := Longest(group[..|group| - 1], today);
      var inv := group[|group| - 1];
      var d := if inv.dueDate.Some? && DaysBetween(inv.dueDate.value, today) < 0
               then -DaysBetween(inv.dueDate.value, today) else 0;
      if inv.dueDate.Some? && d > days then (d, inv.dueDate.value) else (days, earliest)
  }

  function ItemFor(rows: seq<Invoice>, c: nat, contracts: Contracts, settings: Settings, today: ValidDate): Item
    requires c in contracts
  {
    var group := Group(rows, c, today);
    var (days, earliest) := Longest(group, today);
    var grace := Grace(Some(c), contracts, settings);
    Item(contracts[c].status, grace, days, PlusDays(earliest, grace), |group|)
  }

  /** The unfiltered list, by contract. */
  function Delinquents(rows: seq<Invoice>, contracts: Contracts, settings: Settings, today: ValidDate): map<nat, Item> {
    map c | c in contracts && Group(rows, c, today) != [] :: ItemFor(rows, c, contracts, settings, today)
  }

  function ManuallySuspended(office: Office, c: nat, networkOk: bool, recorded: bool): (Office, Result<(), Error>) {
    if c !in office.contracts then (office, Err(NotFound))
    else if office.contracts[c].status != ACTIVE then (office, Err(WrongStatus))
    else if !networkOk then (office, Err(NetworkRefused))
    else (SuspendedWith(office, c, recorded), if recorded then Ok(()) else Err(EpisodeNotSaved))
  }

  function ManuallyReactivated(office: Office, c: nat, networkOk: bool, recorded: bool): (Office, Result<(), Error>) {
    if c !in office.contracts then (office, Err(NotFound))
    else if office.contracts[c].status != SUSPENDED then (office, Err(WrongStatus))
    else if !networkOk then (office, Err(NetworkRefused))
    else (Reactivated(office, c, recorded), if recorded then Ok(()) else Err(EpisodeNotSaved))
  }

  function Terminated(office: Office, c: nat): (Office, Result<(), Error>) {
    if c !in office.contracts then (office, Err(NotFound))
    else if office.contracts[c].status == TERMINATED then (office, Err(WrongStatus))
    else (WithStatus(office, c, TERMINATED), Ok(()))
  }

  /** A new contract is ACTIVE; `override` is the grace it is given before anything is invoiced. */
  function WithContract(office: Office, c: nat, override: Option<int>): Office {
    if c in office.contracts then office
    else office.(contracts := office.contracts[c := Contract(ACTIVE, override)])
  }

  function WithOverride(office: Office, c: nat, override: Option<int>): Office {
    if c !in office.contracts then office
    else office.(contracts := office.contracts[c := office.contracts[c].(graceDaysOverride := override)])
  }

  /** A counter sale on a contract: a suspended one becomes active, and nothing else is looked at. */
  function SoldAtCounter(office: Office, c: nat): Office {
    if c in office.contracts && office.contracts[c].status == SUSPENDED then WithStatus(office, c, ACTIVE) else office
  }

  /** An imported row: it gives the client's contract the imported status, or makes one with it. */
  function Imported(office: Office, c: nat, status: ContractStatus): Office {
    if c !in office.contracts then office.(contracts := office.contracts[c := Contract(status, None)])
    else if office.contracts[c].status == TERMINATED then office
    else WithStatus(office, c, status)
  }

  /** A resolved installation order. */
  function Installed(office: Office, c: nat): Office {
    if c in office.contracts && office.contracts[c].status == PENDING_INSTALL
    then WithStatus(office, c, ACTIVE) else office
  }

  // --- The services ---------------------------------------------------------------------------------

  datatype CycleResult = CycleResult(
    advanceRemindersSent: nat, overdueRemindersSent: nat, contractsSuspended: nat, failed: nat)

  class BackOffice {
    var contracts: Contracts
    var invoices: seq<Invoice>
    var episodes: seq<Episode>
    var reminders: seq<Reminder>

    function State(): Office
      reads this
    {
      Office(contracts, invoices, episodes, reminders)
    }

    method OpenSuspension(c: nat)
      modifies this`episodes
      ensures episodes == Opened(old(episodes), c)
    {
      episodes := episodes + [Episode(c, false)];
    }

    method CloseSuspension(c: nat) returns (found: bool)
      modifies this`episodes
      ensures episodes == Closed(old(episodes), c)
      ensures found <==> episodes != old(episodes)
    {
      var i := |episodes|;
      assert episodes[..i] == episodes;
      while i > 0 && !(episodes[i - 1].contractId == c && !episodes[i - 1].reconnected)
        invariant 0 <= i <= |episodes|
        invariant Closed(episodes, c) == Closed(episodes[..i], c) + episodes[i..]
      {
        i := i - 1;
        assert episodes[..i + 1][..i] == episodes[..i];
        assert episodes[i..] == [episodes[i]] + episodes[i + 1..];
      }
      if i == 0 {
        assert episodes[..0] == [] && episodes[0..] == episodes;
        return false;
      }
      assert episodes[..i][..i - 1] == episodes[..i - 1];
      assert Closed(episodes, c) == episodes[..i - 1] + [Episode(c, true)] + episodes[i..];
      episodes := episodes[i - 1 := Episode(c, true)];
      found := true;
    }

    method SendReminder(i: nat, inv: Invoice, kind: Kind, now: int, saveFails: bool) returns (ok: bool)
      requires i < |invoices|
      modifies this`reminders, this`invoices
      ensures reminders == old(reminders) + [Reminder(inv.id, kind)]
      ensures ok <==> !saveFails
      ensures invoices == if saveFails then old(invoices)
        else
          old(invoices)[i := if kind == ADVANCE then inv.(advanceSentAt := Some(now))
                             else inv.(overdueSentAt := Some(now))]
    {
      reminders := reminders + [Reminder(inv.id, kind)];
      if saveFails { return false; }
      var stamped := if kind == ADVANCE then inv.(advanceSentAt := Some(now)) else inv.(overdueSentAt := Some(now));
      invoices := invoices[i := stamped];
      ok := true;
    }

    /** One turn of the loop over the open invoices. */
    method ProcessInvoice(i: nat, settings: Settings, today: ValidDate, now: int, saveFails: bool)
      returns (reminded: Option<Kind>, failed: bool, cut: Option<int>)
      requires i < |invoices|
      modifies this`reminders, this`invoices
      ensures var turn := TurnOf(old(invoices)[i], contracts, settings, today, now, saveFails);
        && invoices == old(invoices)[i := turn.stored]
        && reminders == old(reminders)
          + (if turn.reminder.Some? then [Reminder(old(invoices)[i].id, turn.reminder.value)] else [])
        && (failed, cut) == (turn.failed, turn.cut)
        && reminded == if turn.failed then None else turn.reminder
    {
      hide DaysBetween, PlusDays;
      reminded, failed, cut := None, false, None;
      var invoice := invoices[i];
      if invoice.dueDate.None? { return; }
      var daysUntilDue := DaysBetween(invoice.dueDate.value, today);
      if invoice.advanceSentAt.None? && daysUntilDue >= 0 && daysUntilDue <= settings.advanceDaysBeforeDue {
        var ok := SendReminder(i, invoice, ADVANCE, now, saveFails);
        if !ok { return None, true, None; }
        reminded := Some(ADVANCE);
      }
      if daysUntilDue < 0 {
        var daysOverdue := -daysUntilDue;
        var stateChanged := false;
        if invoice.daysOverdue != daysOverdue {
          invoice := invoice.(daysOverdue := daysOverdue);
          stateChanged := true;
        }
        var grace := Grace(invoice.contractId, contracts, settings);
        var target := if daysOverdue >= grace then VENCIDA else EN_GRACIA;
        if invoice.status != target {
          if invoice.graceStart.None? {
            invoice := invoice.(graceStart := Some(PlusDays(invoice.dueDate.value, 1)),
                                graceEnd := Some(PlusDays(invoice.dueDate.value, grace)));
          }
          invoice := invoice.(status := target);
          stateChanged := true;
        }
        if invoice.overdueSentAt.None? && daysOverdue >= settings.reminderDaysAfterDue {
          var ok := SendReminder(i, invoice, OVERDUE, now, saveFails);
          if !ok { return None, true, None; }
          reminded := Some(OVERDUE);
        } else if stateChanged {
          if saveFails { return None, true, None; }
          invoices := invoices[i := invoice];
        }
        if daysOverdue >= grace && IsActive(invoice.contractId, contracts) {
          cut := Some(daysOverdue);
        }
      }
    }

    method SuspendContract(c: nat, answer: Answer) returns (raised: bool)
      modifies this`contracts, this`episodes
      ensures State() == Cut(old(State()), c, answer)
      ensures raised <==> Throws(answer)
    {
      if answer == Raised { return true; }
      raised := answer == Unrecorded;
      if answer == Offline || c !in contracts { return; }
      contracts := contracts[c := contracts[c].(status := SUSPENDED)];
      if !raised { OpenSuspension(c); }
    }

    /** The loop over the open invoices. */
    method ProcessInvoices(settings: Settings, today: ValidDate, now: int, saveFails: set<nat>)
      returns (cuts: ToSuspend, advance: nat, overdue: nat, failed: nat)
      modifies this`reminders, this`invoices
      ensures var p := PassOver(old(invoices), contracts, settings, today, now, saveFails);
        && invoices == p.invoices && reminders == old(reminders) + p.reminders
        && cuts == p.cuts && (advance, overdue, failed) == (p.advance, p.overdue, p.failed)
    {
      hide TurnOf, Noted, PassOver;
      NoRows(contracts, settings, today, now, saveFails);
      advance, overdue, failed, cuts := 0, 0, 0, ToSuspend([], map[]);
      ghost var rows, announced := invoices, reminders;
      ghost var p := PassOver(rows[..0], contracts, settings, today, now, saveFails);
      assert rows[..0] == [] && invoices[..0] == [];
      for i := 0 to |invoices|
        invariant p == PassOver(rows[..i], contracts, settings, today, now, saveFails)
        invariant |invoices| == |rows| && invoices[..i] == p.invoices
        invariant forall k :: i <= k < |rows| ==> invoices[k] == rows[k]
        invariant reminders == announced + p.reminders && cuts == p.cuts
        invariant (advance, overdue, failed) == (p.advance, p.overdue, p.failed)
      {
        NextRow(rows, i, contracts, settings, today, now, saveFails);
        var invoice := invoices[i];
        if invoice.Open() {
          var reminded, threw, cut := ProcessInvoice(i, settings, today, now, invoice.id in saveFails);
          if reminded == Some(ADVANCE) { advance := advance + 1; }
          if reminded == Some(OVERDUE) { overdue := overdue + 1; }
          if threw { failed := failed + 1; }
          if cut.Some? && invoice.contractId.Some? {
            cuts := Noted(cuts, invoice.contractId.value, cut.value, invoice.id);
          }
        }
        ghost var turn := RowTurn(rows[i], contracts, settings, today, now, saveFails);
        assert turn.reminder.Some? ==>
          reminders == announced + p.reminders + [Reminder(rows[i].id, turn.reminder.value)];
        assert invoices[..i + 1] == p.invoices + [turn.stored];
        p := PassStep(p, rows[i], turn);
      }
      assert rows[..|rows|] == rows;
    }

    /** The loop over the contracts to cut. */
    method SuspendContracts(order: seq<nat>, answers: map<nat, Answer>) returns (suspended: nat, failed: nat)
      modifies this`contracts, this`episodes
      ensures State() == CutAll(old(State()), order, answers)
      ensures failed == RaisedCount(order, answers) && suspended == |order| - failed
    {
      hide Cut;
      suspended, failed := 0, 0;
      for k := 0 to |order|
        invariant State() == CutAll(old(State()), order[..k], answers)
        invariant failed == RaisedCount(order[..k], answers) && suspended == k - failed
      {
        assert order[..k + 1][..k] == order[..k];
        var raised := SuspendContract(order[k], AnswerFor(answers, order[k]));
        if raised { failed := failed + 1; } else { suspended := suspended + 1; }
      }
      assert order[..|order|] == order;
    }

    method RunMorosidadCycle(settings: Settings, today: ValidDate, now: int, saveFails: set<nat>,
                             answers: map<nat, Answer>)
      returns (r: CycleResult)
      modifies this
      ensures State() == Cycled(old(State()), settings, today, now, saveFails, answers)
      ensures var p := PassOver(old(invoices), old(contracts), settings, today, now, saveFails);
        && (r.advanceRemindersSent, r.overdueRemindersSent) == (p.advance, p.overdue)
        && r.failed == p.failed + RaisedCount(p.cuts.order, answers)
        && r.contractsSuspended == |p.cuts.order| - RaisedCount(p.cuts.order, answers)
    {
      var cuts, advance, overdue, failed := ProcessInvoices(settings, today, now, saveFails);
      var suspended, raised := SuspendContracts(cuts.order, answers);
      r := CycleResult(advance, overdue, suspended, failed + raised);
    }

    /** `recorded`: whether the row of the episode can be saved. */
    method ReactivateIfSettled(c: nat, today: ValidDate, recorded: bool) returns (done: Result<bool, Error>)
      modifies this
      ensures (State(), done) == ReactivatedIfSettled(old(State()), c, today, recorded)
    {
      if c !in contracts || contracts[c].status != SUSPENDED { return Ok(false); }
      if HasOverdue(invoices, c, today) { return Ok(false); }
      contracts := contracts[c := contracts[c].(status := ACTIVE)];
      if !recorded { return Err(EpisodeNotSaved); }
      var found := CloseSuspension(c);
      done := Ok(true);
    }

    method GroupOverdue(today: ValidDate) returns (groups: map<nat, seq<Invoice>>)
      ensures forall c :: c in groups <==> c in contracts && Group(invoices, c, today) != []
      ensures forall c :: c in groups ==> groups[c] == Group(invoices, c, today)
    {
      hide DaysBetween;
      groups := map[];
      for i := 0 to |invoices|
        invariant forall c :: c in groups ==>
          c in contracts && groups[c] != [] && groups[c] == Group(invoices[..i], c, today)
        invariant forall c :: c in contracts && c !in groups ==> Group(invoices[..i], c, today) == []
      {
        assert invoices[..i + 1][..i] == invoices[..i];
        var inv := invoices[i];
        if inv.Open() && inv.dueDate.Some? && DaysBetween(inv.dueDate.value, today) < 0
           && inv.contractId.Some? && inv.contractId.value in contracts
        {
          var c := inv.contractId.value;
          groups := groups[c := (if c in groups then groups[c] else []) + [inv]];
        }
      }
      assert invoices[..|invoices|] == invoices;
    }

    method GetDelinquents(settings: Settings, today: ValidDate) returns (items: map<nat, Item>)
      ensures items == Delinquents(invoices, contracts, settings, today)
    {
      hide Longest, Group, Grace;
      var groups := GroupOverdue(today);
      items := map[];
      var todo := groups.Keys;
      while todo != {}
        invariant todo <= groups.Keys && items.Keys == groups.Keys - todo
        invariant forall c :: c in items ==>
          c in contracts && items[c] == ItemFor(invoices, c, contracts, settings, today)
        decreases |todo|
      {
        var c :| c in todo;
        todo := todo - {c};
        var maxDaysOverdue, earliestDueDate := LongestDelay(groups[c], today);
        var grace := Grace(Some(c), contracts, settings);
        items :=
          items[c := Item(contracts[c].status, grace, maxDaysOverdue, PlusDays(earliestDueDate, grace), |groups[c]|)];
      }
    }

    method LongestDelay(group: seq<Invoice>, today: ValidDate) returns (days: int, earliest: ValidDate)
      ensures (days, earliest) == Longest(group, today)
    {
      hide DaysBetween;
      days, earliest := 0, today;
      for i := 0 to |group|
        invariant (days, earliest) == Longest(group[..i], today)
      {
        assert group[..i + 1][..i] == group[..i];
        var inv := group[i];
        var dOverdue := 0;
        if inv.dueDate.Some? && DaysBetween(inv.dueDate.value, today) < 0 {
          dOverdue := -DaysBetween(inv.dueDate.value, today);
        }
        if inv.dueDate.Some? && dOverdue > days {
          days, earliest := dOverdue, inv.dueDate.value;
        }
      }
      assert group[..|group|] == group;
    }

    /** `ClientsService.suspendContract`. */
    method SuspendManually(c: nat, networkOk: bool, recorded: bool) returns (r: Result<(), Error>)
      modifies this
      ensures (State(), r) == ManuallySuspended(old(State()), c, networkOk, recorded)
    {
      if c !in contracts { return Err(NotFound); }
      if contracts[c].status != ACTIVE { return Err(WrongStatus); }
      if !networkOk { return Err(NetworkRefused); }
      contracts := contracts[c := contracts[c].(status := SUSPENDED)];
      if !recorded { return Err(EpisodeNotSaved); }
      OpenSuspension(c);
      r := Ok(());
    }

    method ReactivateContract(c: nat, networkOk: bool, recorded: bool) returns (r: Result<(), Error>)
      modifies this
      ensures (State(), r) == ManuallyReactivated(old(State()), c, networkOk, recorded)
    {
      if c !in contracts { return Err(NotFound); }
      if contracts[c].status != SUSPENDED { return Err(WrongStatus); }
      if !networkOk { return Err(NetworkRefused); }
      contracts := contracts[c := contracts[c].(status := ACTIVE)];
      if !recorded { return Err(EpisodeNotSaved); }
      var found := CloseSuspension(c);
      r := Ok(());
    }

    /** The grace part of `ClientsService.updateContract`. */
    method UpdateContract(c: nat, graceDaysOverride: Option<int>)
      modifies this`contracts
      ensures State() == WithOverride(old(State()), c, graceDaysOverride)
    {
      if c !in contracts { return; }
      contracts := contracts[c := contracts[c].(graceDaysOverride := graceDaysOverride)];
    }

    /** The contract part of a counter sale. */
    method Checkout(c: nat)
      modifies this`contracts
      ensures State() == SoldAtCounter(old(State()), c)
    {
      if c in contracts && contracts[c].status == SUSPENDED {
        contracts := contracts[c := contracts[c].(status := ACTIVE)];
      }
    }

    /** The contract part of an imported row. */
    method ImportRow(c: nat, status: ContractStatus)
      modifies this`contracts
      ensures State() == Imported(old(State()), c, status)
    {
      if c !in contracts {
        contracts := contracts[c := Contract(status, None)];
      } else if contracts[c].status != TERMINATED {
        contracts := contracts[c := contracts[c].(status := status)];
      }
    }

    /** `CoordinationService.handleTicketResolved` for an installation. */
    method HandleTicketResolved(c: nat)
      modifies this`contracts
      ensures State() == Installed(old(State()), c)
    {
      if c in contracts && contracts[c].status == PENDING_INSTALL {
        contracts := contracts[c := contracts[c].(status := ACTIVE)];
      }
    }

    method TerminateContract(c: nat) returns (r: Result<(), Error>)
      modifies this
      ensures (State(), r) == Terminated(old(State()), c)
    {
      if c !in contracts { return Err(NotFound); }
      if contracts[c].status == TERMINATED { return Err(WrongStatus); }
      contracts := contracts[c := contracts[c].(status := TERMINATED)];
      r := Ok(());
    }
  }
}

/** What the services of the delinquency area keep over whole runs, in any order and with any of their
    steps failing. */
module MorosidadRuns {
  import opened Wrappers
  import opened BillingDate
  import opened SuspensionHistory
  import opened Morosidad
  import opened MorosidadTurn
  import opened MorosidadLaws

  // --- Runs -----------------------------------------------------------------------------------

  /** `recorded` tells whether the row of an episode can be saved. */
  datatype Event =
    | Cycle(settings: Settings, today: ValidDate, now: int, saveFails: set<nat>, answers: map<nat, Answer>)
    | Payment(c: nat, today: ValidDate, recorded: bool)
    | SuspendManually(c: nat, networkOk: bool, recorded: bool)
    | ReactivateManually(c: nat, networkOk: bool, recorded: bool)
    | Terminate(c: nat)
    | CounterSale(c: nat)
    | ImportContract(c: nat, imported: ContractStatus)
    | Install(c: nat)
    | NewContract(c: nat, override: Option<int>)
    | SetOverride(c: nat, override: Option<int>)
    | NewInvoice(contractId: Option<nat>, dueDate: Option<ValidDate>)
    | Settle(i: nat, status: InvoiceStatus)

  function Step(office: Office, e: Event): Office {
    match e
    case Cycle(settings, today, now, saveFails, answers) => Cycled(office, settings, today, now, saveFails, answers)
    case Payment(c, today, recorded) => ReactivatedIfSettled(office, c, today, recorded).0
    case SuspendManually(c, ok, recorded) => ManuallySuspended(office, c, ok, recorded).0
    case ReactivateManually(c, ok, recorded) => ManuallyReactivated(office, c, ok, recorded).0
    case Terminate(c) => Terminated(office, c).0
    case CounterSale(c) => SoldAtCounter(office, c)
    case ImportContract(c, status) => Imported(office, c, status)
    case Install(c) => Installed(office, c)
    case NewContract(c, override) => WithContract(office, c, override)
    case SetOverride(c, override) => WithOverride(office, c, override)
    case NewInvoice(c, due) =>
      if c.Some? && c.value !in office.contracts then office
      else
        var inv := Invoice(|office.invoices|, PENDING_PAYMENT, due, c, 0, None, None, None, None);
        office.(invoices := office.invoices + [inv])
    case Settle(i, status) =>
      if i < |office.invoices| && (status == ISSUED || status == VOIDED)
      then office.(invoices := office.invoices[i := office.invoices[i].(status := status)]) else office
  }

  function Run(office: Office, events: seq<Event>): Office {
    if events == [] then office else Step(Run(office, events[..|events| - 1]), events[|events| - 1])
  }

  const EMPTY := Office(map[], [], [], [])

  // --- Suspension episodes ----------------------------------------------------------------------

  /** An active contract has no open episode, a suspended one exactly one, no contract two. */
  ghost predicate EpisodesOk(office: Office) {
    forall c: nat :: EpisodeOk(office, c)
  }

  predicate EpisodeOk(office: Office, c: nat) {
    var n := OpenCount(office.episodes, c);
    if c !in office.contracts then n == 0
    else match office.contracts[c].status
      case SUSPENDED => n == 1
      case TERMINATED => n <= 1
      case _ => n == 0
  }

  predicate ActiveAt(office: Office, c: nat) { IsActive(Some(c), office.contracts) }

  predicate SuspendedAt(office: Office, c: nat) { c in office.contracts && office.contracts[c].status == SUSPENDED }

  /** What leaves contracts and episodes in disagreement: a service cut or restored whose episode is not saved, a
      counter sale that meets a suspended contract, and an import that makes a contract suspended or a
      suspended one anything but terminated. */
  ghost predicate Harmful(office: Office, e: Event) {
    match e
    case Cycle(settings, today, now, saveFails, answers) =>
      var order := PassOver(office.invoices, office.contracts, settings, today, now, saveFails).cuts.order;
      exists c :: c in order && c in answers && answers[c] == Unrecorded
    case Payment(c, today, recorded) => Settled(office, c, today) && !recorded
    case SuspendManually(c, ok, recorded) => ActiveAt(office, c) && ok && !recorded
    case ReactivateManually(c, ok, recorded) => SuspendedAt(office, c) && ok && !recorded
    case CounterSale(c) => SuspendedAt(office, c)
    case ImportContract(c, status) =>
      if SuspendedAt(office, c) then status != SUSPENDED && status != TERMINATED
      else status == SUSPENDED && (c in office.contracts ==> office.contracts[c].status != TERMINATED)
    case _ => false
  }

  lemma OneContract(office: Office, after: Office, c: nat)
    requires EpisodesOk(office)
    requires forall d :: d != c ==> OpenCount(after.episodes, d) == OpenCount(office.episodes, d)
    requires forall d :: d != c ==> (d in after.contracts <==> d in office.contracts)
    requires forall d :: d != c && d in office.contracts ==> after.contracts[d].status == office.contracts[d].status
    ensures EpisodesOk(after) <==> EpisodeOk(after, c)
  {
    hide OpenCount;
    forall d | d != c ensures EpisodeOk(after, d) { assert EpisodeOk(office, d); }
  }

  lemma SuspendedExactly(office: Office, c: nat, recorded: bool)
    requires EpisodesOk(office) && ActiveAt(office, c)
    ensures EpisodesOk(SuspendedWith(office, c, recorded)) <==> recorded
  {
    hide OpenCount, Opened;
    assert EpisodeOk(office, c);
    forall d
      ensures OpenCount(Opened(office.episodes, c), d) == OpenCount(office.episodes, d) + if c == d then 1 else 0
    {
      OpenedCount(office.episodes, c, d);
    }
    OneContract(office, SuspendedWith(office, c, recorded), c);
  }

  lemma ReactivatedExactly(office: Office, c: nat, recorded: bool)
    requires EpisodesOk(office) && SuspendedAt(office, c)
    ensures EpisodesOk(Reactivated(office, c, recorded)) <==> recorded
  {
    hide OpenCount, Closed;
    assert EpisodeOk(office, c);
    forall d
      ensures OpenCount(Closed(office.episodes, c), d) == OpenCount(office.episodes, d) - if c == d then 1 else 0
    {
      ClosedCount(office.episodes, c, d);
    }
    OneContract(office, Reactivated(office, c, recorded), c);
  }

  lemma StatusExactly(office: Office, c: nat, status: ContractStatus)
    requires EpisodesOk(office) && c in office.contracts && office.contracts[c].status != TERMINATED
    ensures EpisodesOk(WithStatus(office, c, status)) <==>
      status == TERMINATED || (status == SUSPENDED <==> office.contracts[c].status == SUSPENDED)
  {
    hide OpenCount;
    assert EpisodeOk(office, c);
    OneContract(office, WithStatus(office, c, status), c);
  }

  lemma CutExactly(office: Office, c: nat, answer: Answer)
    requires ActiveAt(office, c) && EpisodeOk(office, c)
    ensures EpisodeOk(Cut(office, c, answer), c) <==> answer != Unrecorded
    ensures forall d :: d != c ==> EpisodeOk(Cut(office, c, answer), d) == EpisodeOk(office, d)
    ensures forall d :: d != c ==> ActiveAt(Cut(office, c, answer), d) == ActiveAt(office, d)
  {
    hide OpenCount, Opened;
    forall d
      ensures OpenCount(Opened(office.episodes, c), d) == OpenCount(office.episodes, d) + if c == d then 1 else 0
    {
      OpenedCount(office.episodes, c, d);
    }
  }

  lemma {:induction false} CutAllExactly(office: Office, order: seq<nat>, answers: map<nat, Answer>, c: nat)
    requires EpisodesOk(office)
    requires forall i :: 0 <= i < |order| ==> ActiveAt(office, order[i])
    requires forall i, j :: 0 <= i < j < |order| ==> order[i] != order[j]
    ensures EpisodeOk(CutAll(office, order, answers), c) <==> !(c in order && AnswerFor(answers, c) == Unrecorded)
    ensures c !in order ==> ActiveAt(CutAll(office, order, answers), c) == ActiveAt(office, c)
  {
    hide EpisodeOk, Cut, ActiveAt;
    if order == [] {
      assert EpisodeOk(office, c);
    } else {
      var front, last := order[..|order| - 1], order[|order| - 1];
      assert order == front + [last] && last !in front;
      CutAllExactly(office, front, answers, c);
      CutAllExactly(office, front, answers, last);
      CutExactly(CutAll(office, front, answers), last, AnswerFor(answers, last));
    }
  }

  lemma {:induction false} OnlyActiveAreCut(rows: seq<Invoice>, contracts: Contracts, settings: Settings,
                                            today: ValidDate, now: int, saveFails: set<nat>, c: nat)
    ensures c in PassOver(rows, contracts, settings, today, now, saveFails).cuts.worst ==> IsActive(Some(c), contracts)
  {
    hide PassOver, CutBy;
    CutsUnderFailures(rows, contracts, settings, today, now, saveFails, c);
  }

  lemma CycledExactly(office: Office, settings: Settings, today: ValidDate, now: int, saveFails: set<nat>,
                      answers: map<nat, Answer>)
    requires EpisodesOk(office)
    ensures EpisodesOk(Cycled(office, settings, today, now, saveFails, answers)) <==>
      !Harmful(office, Cycle(settings, today, now, saveFails, answers))
  {
    hide PassOver, EpisodeOk, CutAll;
    var p := PassOver(office.invoices, office.contracts, settings, today, now, saveFails);
    var aged := office.(invoices := p.invoices, reminders := office.reminders + p.reminders);
    OrderListsCuts(office.invoices, office.contracts, settings, today, now, saveFails);
    forall i | 0 <= i < |p.cuts.order| ensures ActiveAt(aged, p.cuts.order[i]) {
      assert p.cuts.order[i] in p.cuts.order;
      OnlyActiveAreCut(office.invoices, office.contracts, settings, today, now, saveFails, p.cuts.order[i]);
    }
    forall c: nat ensures EpisodeOk(aged, c) {
      assert EpisodeOk(office, c);
      SameEpisode(office, aged, c);
    }
    forall c: nat
      ensures EpisodeOk(CutAll(aged, p.cuts.order, answers), c)
        <==> !(c in p.cuts.order && AnswerFor(answers, c) == Unrecorded)
    {
      CutAllExactly(aged, p.cuts.order, answers, c);
    }
  }

  lemma SameEpisode(office: Office, after: Office, c: nat)
    requires after.contracts == office.contracts && after.episodes == office.episodes
    ensures EpisodeOk(after, c) == EpisodeOk(office, c)
  {}

  lemma QuietStepKeepsEpisodes(office: Office, e: Event)
    requires EpisodesOk(office) && (e.NewContract? || e.SetOverride? || e.NewInvoice? || e.Settle?)
    ensures EpisodesOk(Step(office, e))
  {
    hide OpenCount;
    forall c: nat ensures EpisodeOk(Step(office, e), c) { assert EpisodeOk(office, c); }
  }

  lemma ImportedExactly(office: Office, c: nat, status: ContractStatus)
    requires EpisodesOk(office)
    ensures EpisodesOk(Imported(office, c, status)) <==> !Harmful(office, ImportContract(c, status))
  {
    hide OpenCount;
    if c !in office.contracts {
      assert EpisodeOk(office, c);
      OneContract(office, Imported(office, c, status), c);
    } else if office.contracts[c].status != TERMINATED {
      StatusExactly(office, c, status);
    }
  }

  lemma EpisodesStepExactly(office: Office, e: Event)
    requires EpisodesOk(office)
    ensures EpisodesOk(Step(office, e)) <==> !Harmful(office, e)
  {
    hide EpisodesOk, Cycled, PassOver, HasOverdue, SuspendedWith, Reactivated, Imported, WithStatus;
    match e
    case Cycle(settings, today, now, saveFails, answers) =>
      CycledExactly(office, settings, today, now, saveFails, answers);
    case Payment(c, today, recorded) => if Settled(office, c, today) { ReactivatedExactly(office, c, recorded); }
    case SuspendManually(c, ok, recorded) => if ActiveAt(office, c) { SuspendedExactly(office, c, recorded); }
    case ReactivateManually(c, ok, recorded) => if SuspendedAt(office, c) { ReactivatedExactly(office, c, recorded); }
    case Terminate(c) =>
      if c in office.contracts && office.contracts[c].status != TERMINATED { StatusExactly(office, c, TERMINATED); }
    case CounterSale(c) => if SuspendedAt(office, c) { StatusExactly(office, c, ACTIVE); }
    case Install(c) =>
      if c in office.contracts && office.contracts[c].status == PENDING_INSTALL { StatusExactly(office, c, ACTIVE); }
    case ImportContract(c, status) => ImportedExactly(office, c, status);
    case _ => QuietStepKeepsEpisodes(office, e);
  }

  ghost predicate NoneHarmful(events: seq<Event>) {
    forall k :: 0 <= k < |events| ==> !Harmful(Run(EMPTY, events[..k]), events[k])
  }

  lemma PrefixNotHarmful(events: seq<Event>, n: nat)
    requires n <= |events| && NoneHarmful(events)
    ensures NoneHarmful(events[..n])
  {
    hide Harmful, Run;
    forall k | 0 <= k < n ensures !Harmful(Run(EMPTY, events[..n][..k]), events[..n][k]) {
      assert events[..n][..k] == events[..k] && events[..n][k] == events[k];
    }
  }

  /** Over every interleaving of cycles, payments, manual operations, sales and imports without a harmful one,
      whatever else fails, no contract has two open episodes, an active one has none and a suspended one
      exactly one. */
  lemma {:induction false} EveryRunKeepsEpisodes(events: seq<Event>)
    requires NoneHarmful(events)
    ensures EpisodesOk(Run(EMPTY, events))
  {
    hide EpisodesOk, Step, Harmful;
    if events == [] {
      NoEpisodes();
    } else {
      var n := |events| - 1;
      PrefixNotHarmful(events, n);
      EveryRunKeepsEpisodes(events[..n]);
      assert !Harmful(Run(EMPTY, events[..n]), events[n]);
      EpisodesStepExactly(Run(EMPTY, events[..n]), events[n]);
    }
  }

  lemma NoEpisodes()
    ensures EpisodesOk(EMPTY)
  {}

  /** That holds all along a run if and only if no event of it is harmful. */
  lemma EpisodesKeptExactly(events: seq<Event>)
    ensures (forall n: nat :: n <= |events| ==> EpisodesOk(Run(EMPTY, events[..n]))) <==> NoneHarmful(events)
  {
    hide EpisodesOk, Step, Harmful;
    if NoneHarmful(events) {
      forall n: nat | n <= |events| ensures EpisodesOk(Run(EMPTY, events[..n])) {
        PrefixNotHarmful(events, n);
        EveryRunKeepsEpisodes(events[..n]);
      }
    }
    if forall n: nat :: n <= |events| ==> EpisodesOk(Run(EMPTY, events[..n])) {
      forall k | 0 <= k < |events| ensures !Harmful(Run(EMPTY, events[..k]), events[k]) {
        assert events[..k + 1][..k] == events[..k];
        assert EpisodesOk(Run(EMPTY, events[..k])) && EpisodesOk(Run(EMPTY, events[..k + 1]));
        EpisodesStepExactly(Run(EMPTY, events[..k]), events[k]);
      }
    }
  }

  /** For one: a contract suspended, sold to at the counter and suspended again has two open episodes. */
  lemma SaleLeavesEpisodeOpen(office: Office, c: nat)
    requires EpisodesOk(office) && ActiveAt(office, c)
    ensures var events := [SuspendManually(c, true, true), CounterSale(c), SuspendManually(c, true, true)];
      OpenCount(Run(office, events).episodes, c) == 2
  {
    hide OpenCount;
    var cut := SuspendManually(c, true, true);
    var one := Step(office, cut);
    var two := Step(one, CounterSale(c));
    RunOfThree(office, cut, CounterSale(c), cut);
    assert EpisodeOk(office, c);
    OpenedCount(office.episodes, c, c);
    OpenedCount(two.episodes, c, c);
  }

  lemma RunOfThree(office: Office, a: Event, b: Event, d: Event)
    ensures Run(office, [a, b, d]) == Step(Step(Step(office, a), b), d)
  {
    hide Step;
    assert [a][..0] == [] && [a, b][..1] == [a] && [a, b, d][..2] == [a, b];
    assert Run(office, [a]) == Step(office, a);
    assert Run(office, [a, b]) == Step(Run(office, [a]), b);
  }

  // --- Reminders -------------------------------------------------------------------------------------

  predicate Sent(inv: Invoice, kind: Kind) {
    if kind == ADVANCE then inv.advanceSentAt.Some? else inv.overdueSentAt.Some?
  }

  ghost predicate NoRepeats(reminders: seq<Reminder>) {
    forall i, j :: 0 <= i < j < |reminders| ==> reminders[i] != reminders[j]
  }

  ghost predicate Numbered(rows: seq<Invoice>) { forall i :: 0 <= i < |rows| ==> rows[i].id == i }

  /** Every announced reminder is marked on its invoice. */
  ghost predicate Marked(rows: seq<Invoice>, reminders: seq<Reminder>) {
    forall r :: r in reminders ==> r.invoiceId < |rows| && Sent(rows[r.invoiceId], r.kind)
  }

  ghost predicate RemindersOk(office: Office) {
    Numbered(office.invoices) && NoRepeats(office.reminders) && Marked(office.invoices, office.reminders)
  }

  lemma TurnReminds(inv: Invoice, contracts: Contracts, settings: Settings, today: ValidDate, now: int, kind: Kind)
    ensures var turn := RowTurn(inv, contracts, settings, today, now, {});
      && turn.stored.id == inv.id
      && (Sent(inv, kind) ==> Sent(turn.stored, kind) && turn.reminder != Some(kind))
      && (turn.reminder == Some(kind) ==> Sent(turn.stored, kind))
  {
    hide DaysBetween, PlusDays, Grace;
  }

  /** A pass announces only what was not yet marked, once, and marks it. */
  lemma {:induction false} PassReminds(rows: seq<Invoice>, contracts: Contracts, settings: Settings, today: ValidDate,
                                       now: int)
    requires Numbered(rows)
    ensures var p := PassOver(rows, contracts, settings, today, now, {});
      && Numbered(p.invoices) && NoRepeats(p.reminders) && Marked(p.invoices, p.reminders)
      && (forall r :: r in p.reminders ==> r.invoiceId < |rows| && !Sent(rows[r.invoiceId], r.kind))
      && (forall i, kind :: 0 <= i < |rows| && Sent(rows[i], kind) ==> Sent(p.invoices[i], kind))
  {
    hide RowTurn, Noted, Sent;
    if rows != [] {
      var front, last := rows[..|rows| - 1], rows[|rows| - 1];
      PassReminds(front, contracts, settings, today, now);
      var turn := RowTurn(last, contracts, settings, today, now, {});
      forall kind
        ensures turn.stored.id == last.id
          && (Sent(last, kind) ==> Sent(turn.stored, kind) && turn.reminder != Some(kind))
        ensures turn.reminder == Some(kind) ==> Sent(turn.stored, kind)
      {
        TurnReminds(last, contracts, settings, today, now, kind);
      }
      var q, p :=
        PassOver(front, contracts, settings, today, now, {}), PassOver(rows, contracts, settings, today, now, {});
      assert forall i :: 0 <= i < |front| ==> p.invoices[i] == q.invoices[i];
    }
  }

  lemma CycledReminds(office: Office, settings: Settings, today: ValidDate, now: int, answers: map<nat, Answer>)
    requires RemindersOk(office)
    ensures RemindersOk(Cycled(office, settings, today, now, {}, answers))
  {
    hide PassOver, CutAll, Sent;
    PassReminds(office.invoices, office.contracts, settings, today, now);
    var p := PassOver(office.invoices, office.contracts, settings, today, now, {});
    var aged := office.(invoices := p.invoices, reminders := office.reminders + p.reminders);
    CutAllKeeps(aged, p.cuts.order, answers);
    forall r | r in office.reminders ensures r !in p.reminders {
      assert Sent(office.invoices[r.invoiceId], r.kind);
    }
  }

  ghost predicate NoSaveFails(e: Event) { e.Cycle? ==> e.saveFails == {} }

  lemma RemindersStep(office: Office, e: Event)
    requires RemindersOk(office) && NoSaveFails(e)
    ensures RemindersOk(Step(office, e))
  {
    hide Cycled, OverdueFor;
    if e.Cycle? { CycledReminds(office, e.settings, e.today, e.now, e.answers); }
  }

  /** Over every run without failing saves, each invoice gets each kind of reminder at most once. */
  lemma {:induction false} EveryRunRemindsOnce(events: seq<Event>)
    requires forall k :: 0 <= k < |events| ==> NoSaveFails(events[k])
    ensures RemindersOk(Run(EMPTY, events))
  {
    hide Step;
    if events != [] {
      EveryRunRemindsOnce(events[..|events| - 1]);
      RemindersStep(Run(EMPTY, events[..|events| - 1]), events[|events| - 1]);
    }
  }

  // --- VENCIDA is not left ------------------------------------------------------------------------------

  ghost predicate VencidaOk(inv: Invoice, contracts: Contracts, settings: Settings, today: ValidDate) {
    inv.status == VENCIDA ==>
      inv.dueDate.Some? && Delay(inv, today) >= Grace(inv.contractId, contracts, settings) && Delay(inv, today) > 0
  }

  lemma VencidaTurn(inv: Invoice, contracts: Contracts, settings: Settings, before: ValidDate, today: ValidDate,
                    now: int, saveFails: set<nat>)
    requires VencidaOk(inv, contracts, settings, before) && DaysBetween(today, before) >= 0
    ensures var after := RowTurn(inv, contracts, settings, today, now, saveFails).stored;
      VencidaOk(after, contracts, settings, today) && Onward(inv.status, after.status)
  {
    hide DayOf, PlusDays, Grace;
  }

  ghost predicate RowsVencidaOk(rows: seq<Invoice>, contracts: Contracts, settings: Settings, today: ValidDate) {
    forall i :: 0 <= i < |rows| ==> VencidaOk(rows[i], contracts, settings, today)
  }

  /** Every invoice of a contract is of one that exists. */
  ghost predicate KnownContracts(rows: seq<Invoice>, contracts: Contracts) {
    forall i :: 0 <= i < |rows| && rows[i].contractId.Some? ==> rows[i].contractId.value in contracts
  }

  ghost predicate AllVencidaOk(office: Office, settings: Settings, today: ValidDate) {
    RowsVencidaOk(office.invoices, office.contracts, settings, today)
      && KnownContracts(office.invoices, office.contracts)
  }

  /** Not back before VENCIDA: an invoice that is VENCIDA stays so, or is settled or voided for good. */
  predicate Onward(before: InvoiceStatus, after: InvoiceStatus) {
    match before
    case VENCIDA => after == VENCIDA || after == ISSUED || after == VOIDED
    case ISSUED => after == ISSUED || after == VOIDED
    case VOIDED => after == ISSUED || after == VOIDED
    case _ => true
  }

  ghost predicate AllOnward(rows: seq<Invoice>, after: seq<Invoice>) {
    |rows| <= |after| && forall i :: 0 <= i < |rows| ==> Onward(rows[i].status, after[i].status)
  }

  lemma {:induction false} VencidaPass(rows: seq<Invoice>, contracts: Contracts, settings: Settings, before: ValidDate,
                                       today: ValidDate, now: int, saveFails: set<nat>)
    requires RowsVencidaOk(rows, contracts, settings, before) && DaysBetween(today, before) >= 0
    ensures var after := PassOver(rows, contracts, settings, today, now, saveFails).invoices;
      RowsVencidaOk(after, contracts, settings, today) && AllOnward(rows, after)
  {
    hide VencidaOk, RowTurn, DaysBetween, Onward;
    if rows != [] {
      var n := |rows| - 1;
      VencidaPass(rows[..n], contracts, settings, before, today, now, saveFails);
      VencidaTurn(rows[n], contracts, settings, before, today, now, saveFails);
      var after := PassOver(rows, contracts, settings, today, now, saveFails).invoices;
      var front := PassOver(rows[..n], contracts, settings, today, now, saveFails).invoices;
      assert after == front + [RowTurn(rows[n], contracts, settings, today, now, saveFails).stored];
      forall i | 0 <= i < |rows|
        ensures Onward(rows[i].status, after[i].status) && VencidaOk(after[i], contracts, settings, today)
      {
        if i < n { assert Onward(rows[..n][i].status, front[i].status); }
      }
    }
  }

  lemma {:induction false} PassAt(rows: seq<Invoice>, contracts: Contracts, settings: Settings, today: ValidDate,
                                  now: int, saveFails: set<nat>, i: nat)
    requires i < |rows|
    ensures PassOver(rows, contracts, settings, today, now, saveFails).invoices[i]
      == RowTurn(rows[i], contracts, settings, today, now, saveFails).stored
  {
    hide RowTurn, Noted;
    if i < |rows| - 1 { PassAt(rows[..|rows| - 1], contracts, settings, today, now, saveFails, i); }
  }

  lemma KnownAfterPass(rows: seq<Invoice>, contracts: Contracts, settings: Settings, today: ValidDate, now: int,
                       saveFails: set<nat>)
    requires KnownContracts(rows, contracts)
    ensures KnownContracts(PassOver(rows, contracts, settings, today, now, saveFails).invoices, contracts)
  {
    hide PassOver, RowTurn;
    var after := PassOver(rows, contracts, settings, today, now, saveFails).invoices;
    forall i | 0 <= i < |after| && after[i].contractId.Some? ensures after[i].contractId.value in contracts {
      PassAt(rows, contracts, settings, today, now, saveFails, i);
      TurnKeeps(rows[i], contracts, settings, today, now, saveFails);
    }
  }

  // --- Exactly when an invoice goes back ---------------------------------------------------------

  /** The cycle finds an overdue invoice short of its grace, as after the settings or its override were raised,
      and the save of it goes through. */
  predicate SlipsBack(inv: Invoice, contracts: Contracts, e: Event)
    requires e.Cycle?
  {
    inv.dueDate.Some? && 0 < Delay(inv, e.today) < Grace(inv.contractId, contracts, e.settings)
      && inv.id !in e.saveFails
  }

  lemma TurnBackExactly(inv: Invoice, contracts: Contracts, e: Event)
    requires e.Cycle? && inv.status == VENCIDA
    ensures var after := RowTurn(inv, contracts, e.settings, e.today, e.now, e.saveFails).stored;
      if SlipsBack(inv, contracts, e) then after.status == EN_GRACIA else after.status == VENCIDA
  {
    hide DaysBetween, PlusDays, Grace;
  }

  ghost predicate NoneSlipsBack(office: Office, e: Event) {
    e.Cycle? ==>
      forall i :: 0 <= i < |office.invoices| && office.invoices[i].status == VENCIDA ==>
        !SlipsBack(office.invoices[i], office.contracts, e)
  }

  lemma CycleRows(office: Office, e: Event)
    requires e.Cycle?
    ensures Step(office, e).invoices ==
      PassOver(office.invoices, office.contracts, e.settings, e.today, e.now, e.saveFails).invoices
  {
    hide PassOver, CutAll;
    var p := PassOver(office.invoices, office.contracts, e.settings, e.today, e.now, e.saveFails);
    CutAllKeeps(office.(invoices := p.invoices, reminders := office.reminders + p.reminders), p.cuts.order, e.answers);
  }

  lemma ClosedStays(inv: Invoice, contracts: Contracts, settings: Settings, today: ValidDate, now: int,
                    saveFails: set<nat>)
    requires !inv.Open()
    ensures RowTurn(inv, contracts, settings, today, now, saveFails).stored == inv
  {}

  /** Whatever the settings and overrides are, a step takes no invoice back before VENCIDA if and only if no
      cycle finds one that slips back. */
  lemma OnwardExactly(office: Office, e: Event)
    ensures AllOnward(office.invoices, Step(office, e).invoices) <==> NoneSlipsBack(office, e)
  {
    hide PassOver, RowTurn, SlipsBack, Cycled;
    var rows, after := office.invoices, Step(office, e).invoices;
    if e.Cycle? {
      CycleRows(office, e);
      forall i | 0 <= i < |rows|
        ensures Onward(rows[i].status, after[i].status) <==>
          !(rows[i].status == VENCIDA && SlipsBack(rows[i], office.contracts, e))
      {
        PassAt(rows, office.contracts, e.settings, e.today, e.now, e.saveFails, i);
        if rows[i].status == VENCIDA {
          TurnBackExactly(rows[i], office.contracts, e);
        } else if !rows[i].Open() {
          ClosedStays(rows[i], office.contracts, e.settings, e.today, e.now, e.saveFails);
        }
      }
    }
  }

  // --- With fixed settings and overrides -----------------------------------------------------------

  /** Cycles under fixed settings on days that do not go back, from `start` on, among any other events but
      changes of an override. */
  ghost predicate CyclesForward(events: seq<Event>, settings: Settings, start: ValidDate) {
    && (forall k :: 0 <= k < |events| ==> !events[k].SetOverride?)
    && (forall k :: 0 <= k < |events| && events[k].Cycle? ==>
          events[k].settings == settings && DaysBetween(events[k].today, start) >= 0)
    && (forall j, k :: 0 <= j < k < |events| && events[j].Cycle? && events[k].Cycle? ==>
          DaysBetween(events[k].today, events[j].today) >= 0)
  }

  /** The day of the last cycle. */
  function LastDay(events: seq<Event>, start: ValidDate): ValidDate {
    if events == [] then start
    else if events[|events| - 1].Cycle? then events[|events| - 1].today
    else LastDay(events[..|events| - 1], start)
  }

  lemma {:induction false} LastDayBefore(events: seq<Event>, start: ValidDate, today: ValidDate)
    requires DaysBetween(today, start) >= 0
    requires forall k :: 0 <= k < |events| && events[k].Cycle? ==> DaysBetween(today, events[k].today) >= 0
    ensures DaysBetween(today, LastDay(events, start)) >= 0
  {
    hide DaysBetween;
    if events != [] { LastDayBefore(events[..|events| - 1], start, today); }
  }

  lemma CycleKeepsVencida(office: Office, settings: Settings, before: ValidDate, e: Event)
    requires e.Cycle? && e.settings == settings && DaysBetween(e.today, before) >= 0
    requires AllVencidaOk(office, settings, before)
    ensures AllVencidaOk(Step(office, e), settings, e.today) && AllOnward(office.invoices, Step(office, e).invoices)
  {
    hide PassOver, CutAll, DaysBetween, RowsVencidaOk, KnownContracts, AllOnward, SameGrace;
    var p := PassOver(office.invoices, office.contracts, settings, e.today, e.now, e.saveFails);
    VencidaPass(office.invoices, office.contracts, settings, before, e.today, e.now, e.saveFails);
    KnownAfterPass(office.invoices, office.contracts, settings, e.today, e.now, e.saveFails);
    var aged := office.(invoices := p.invoices, reminders := office.reminders + p.reminders);
    CutAllKeeps(aged, p.cuts.order, e.answers);
    SameGraceIsKept(office.contracts, CutAll(aged, p.cuts.order, e.answers).contracts);
    KeptGraceVencida(aged, CutAll(aged, p.cuts.order, e.answers), settings, e.today);
  }

  /** Contracts stay, and keep their overrides. */
  ghost predicate KeptGrace(a: Contracts, b: Contracts) {
    forall c :: c in a ==> c in b && b[c].graceDaysOverride == a[c].graceDaysOverride
  }

  lemma SameGraceIsKept(a: Contracts, b: Contracts)
    requires SameGrace(a, b)
    ensures KeptGrace(a, b)
  {}

  lemma KeptGraceVencida(office: Office, after: Office, settings: Settings, today: ValidDate)
    requires KeptGrace(office.contracts, after.contracts) && after.invoices == office.invoices
    requires AllVencidaOk(office, settings, today)
    ensures AllVencidaOk(after, settings, today)
  {
    hide DaysBetween;
    forall k | 0 <= k < |after.invoices| ensures VencidaOk(after.invoices[k], after.contracts, settings, today) {
      assert VencidaOk(office.invoices[k], office.contracts, settings, today);
    }
  }

  lemma OtherKeepsVencida(office: Office, e: Event, settings: Settings, today: ValidDate)
    requires !e.Cycle? && !e.SetOverride? && AllVencidaOk(office, settings, today)
    ensures AllVencidaOk(Step(office, e), settings, today) && AllOnward(office.invoices, Step(office, e).invoices)
  {
    hide DaysBetween, HasOverdue, Closed, Opened, VencidaOk;
    if e.NewInvoice? || e.Settle? {
      RowsKeepVencida(office, e, settings, today);
    } else {
      KeptGraceVencida(office, Step(office, e), settings, today);
    }
  }

  lemma RowsKeepVencida(office: Office, e: Event, settings: Settings, today: ValidDate)
    requires (e.NewInvoice? || e.Settle?) && AllVencidaOk(office, settings, today)
    ensures AllVencidaOk(Step(office, e), settings, today) && AllOnward(office.invoices, Step(office, e).invoices)
  {
    hide DaysBetween, Grace;
    var after := Step(office, e);
    forall i | 0 <= i < |after.invoices| ensures VencidaOk(after.invoices[i], after.contracts, settings, today) {
      if i < |office.invoices| { assert VencidaOk(office.invoices[i], office.contracts, settings, today); }
    }
  }

  /** In every run with fixed settings and overrides whose cycles do not go back in time, an invoice is VENCIDA
      only while its delay has reached the grace of its contract. */
  lemma {:induction false} EveryRunAgesRightly(settings: Settings, start: ValidDate, events: seq<Event>)
    requires CyclesForward(events, settings, start)
    ensures AllVencidaOk(Run(EMPTY, events), settings, LastDay(events, start))
  {
    hide Step, DaysBetween, AllVencidaOk;
    if events == [] {
      NoneVencida(settings, start);
    } else {
      var front, e := events[..|events| - 1], events[|events| - 1];
      EveryRunAgesRightly(settings, start, front);
      StepKeepsVencida(events, settings, start, Run(EMPTY, front));
    }
  }

  lemma NoneVencida(settings: Settings, start: ValidDate)
    ensures AllVencidaOk(EMPTY, settings, start)
  {}

  lemma StepKeepsVencida(events: seq<Event>, settings: Settings, start: ValidDate, office: Office)
    requires events != [] && CyclesForward(events, settings, start)
    requires AllVencidaOk(office, settings, LastDay(events[..|events| - 1], start))
    ensures var after := Step(office, events[|events| - 1]);
      AllVencidaOk(after, settings, LastDay(events, start)) && AllOnward(office.invoices, after.invoices)
  {
    hide Step, DaysBetween, AllVencidaOk, AllOnward;
    var front, e := events[..|events| - 1], events[|events| - 1];
    if e.Cycle? {
      LastDayBefore(front, start, e.today);
      CycleKeepsVencida(office, settings, LastDay(front, start), e);
    } else {
      OtherKeepsVencida(office, e, settings, LastDay(front, start));
    }
  }

  /** In every such run, with invoices and contracts created, settled, suspended and restored between the
      cycles, no invoice that is VENCIDA at some point is EN_GRACIA or pending at a later one. */
  lemma {:induction false} VencidaStays(settings: Settings, start: ValidDate, events: seq<Event>, k: nat)
    requires CyclesForward(events, settings, start) && k <= |events|
    ensures AllOnward(Run(EMPTY, events[..k]).invoices, Run(EMPTY, events).invoices)
    decreases |events|
  {
    hide Step, DaysBetween, AllVencidaOk, CyclesForward;
    if k == |events| {
      assert events[..k] == events;
    } else {
      var front := events[..|events| - 1];
      assert front[..k] == events[..k];
      ForwardPrefix(events, settings, start);
      VencidaStays(settings, start, front, k);
      EveryRunAgesRightly(settings, start, front);
      StepKeepsVencida(events, settings, start, Run(EMPTY, front));
      OnwardTwice(Run(EMPTY, events[..k]).invoices, Run(EMPTY, front).invoices, Run(EMPTY, events).invoices);
    }
  }

  lemma ForwardPrefix(events: seq<Event>, settings: Settings, start: ValidDate)
    requires events != [] && CyclesForward(events, settings, start)
    ensures CyclesForward(events[..|events| - 1], settings, start)
  {
    hide DaysBetween;
  }

  lemma OnwardTwice(a: seq<Invoice>, b: seq<Invoice>, c: seq<Invoice>)
    requires AllOnward(a, b) && AllOnward(b, c)
    ensures AllOnward(a, c)
  {
    forall i | 0 <= i < |a| ensures Onward(a[i].status, c[i].status) {
      assert Onward(a[i].status, b[i].status) && Onward(b[i].status, c[i].status);
    }
  }

  ghost predicate OnwardAt(events: seq<Event>, k: nat)
    requires k < |events|
  {
    AllOnward(Run(EMPTY, events[..k]).invoices, Run(EMPTY, events[..k + 1]).invoices)
  }

  ghost predicate QuietAt(events: seq<Event>, k: nat)
    requires k < |events|
  {
    NoneSlipsBack(Run(EMPTY, events[..k]), events[k])
  }

  /** Along any run, with settings and overrides changing at will, no invoice ever goes back before VENCIDA if
      and only if no cycle finds one that slips back. */
  lemma VencidaKeptExactly(events: seq<Event>)
    ensures (forall k: nat :: k < |events| ==> OnwardAt(events, k))
      <==> (forall k: nat :: k < |events| ==> QuietAt(events, k))
  {
    hide AllOnward, NoneSlipsBack, Step, Run;
    forall k: nat | k < |events| ensures OnwardAt(events, k) <==> QuietAt(events, k) {
      RunOneMore(events, k);
      OnwardExactly(Run(EMPTY, events[..k]), events[k]);
    }
  }

  lemma RunOneMore(events: seq<Event>, k: nat)
    requires k < |events|
    ensures Run(EMPTY, events[..k + 1]) == Step(Run(EMPTY, events[..k]), events[k])
  {
    hide Step;
    assert events[..k + 1][..k] == events[..k];
  }
}

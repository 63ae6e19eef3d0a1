/** Models src/modules/billing/billing-cycle.service.ts, with the taxes of
    src/modules/billing/tax-calculation.service.ts. Amounts are whole cents, rates whole
    percents, and rounding is half up. The partial unique index on invoices refuses a second
    invoice of a contract and period that is not voided. Of an invoice the columns of its period, its due
    date, its status and its amounts are kept, of a contract those that decide billing. */
module BillingCycle {
  import opened Wrappers
  import opened BillingDate

  datatype Status = PENDING_PAYMENT | EN_GRACIA | VENCIDA | ISSUED | VOIDED

  datatype Plan = Plan(monthlyPrice: nat, itbisRate: nat, cdtRate: nat, iscRate: nat)

  datatype Contract = Contract(id: nat, active: bool, billingDay: int, startDate: ValidDate, plan: Plan)

  datatype Amounts = Amounts(subtotal: nat, itbis: nat, cdt: nat, isc: nat, grandTotal: nat)

  datatype Invoice = Invoice(
    contractId: nat, periodStart: Date, periodEnd: Date, dueDate: Date, status: Status, amounts: Amounts,
    proratedDays: Option<int>)

  // --- Amounts ----------------------------------------------------------------------

  /** `n / d` rounded half up. */
  function Round(n: nat, d: nat): nat
    requires d > 0
  {
    (2 * n + d) / (2 * d)
  }

  function Taxed(subtotal: nat, plan: Plan): Amounts {
    var itbis, cdt, isc :=
      Round(subtotal * plan.itbisRate, 100), Round(subtotal * plan.cdtRate, 100), Round(subtotal * plan.iscRate, 100);
    Amounts(subtotal, itbis, cdt, isc, subtotal + itbis + cdt + isc)
  }

  function PeriodStart(c: Date): Date { Date(c.year, c.month, 1) }

  function PeriodEnd(c: Date): Date { Date(c.year, c.month, DaysInMonth(c.year, c.month)) }

  /** The years from 100 on, where JavaScript reads a year as it is written. */
  predicate Modern(c: Date) { c.Valid() && c.year >= 100 }

  lemma PeriodIsValid(c: Date)
    requires Modern(c)
    ensures PeriodStart(c).Valid() && PeriodEnd(c).Valid()
      && DaysInMonth(c.year, c.month) == MonthLength(c.year, c.month)
  {
    DaysInMonthIsLength(c.year, c.month);
  }

  function CycleDays(policy: ProrationDayCountPolicy, start: Date): (n: nat)
    requires Modern(start)
    ensures n == if policy == FIXED_30 then 30 else MonthLength(start.year, start.month)
  {
    hide DayFromYear;
    PeriodIsValid(start);
    ResolveProrationDayCount(policy, PeriodStart(start), PeriodEnd(start))
  }

  /** How many days are charged: those left in the month, but no more than the cycle has. */
  function EffectiveDays(policy: ProrationDayCountPolicy, start: Date): (n: nat)
    requires Modern(start)
    ensures n == (var left := MonthLength(start.year, start.month) - start.day + 1;
                  if policy == FIXED_30 && left > 30 then 30 else left)
    ensures 1 <= n <= CycleDays(policy, start)
  {
    hide DayFromYear, CycleDays;
    PeriodIsValid(start);
    var rawDaysUsed := DaysBetween(PeriodEnd(start), start) + 1;
    if rawDaysUsed < CycleDays(policy, start) then rawDaysUsed else CycleDays(policy, start)
  }

  function ProratedSubtotal(policy: ProrationDayCountPolicy, start: Date, price: nat): nat
    requires Modern(start)
  {
    hide EffectiveDays, CycleDays;
    Round(price * EffectiveDays(policy, start), CycleDays(policy, start))
  }

  // --- The operations -------------------------------------------------------------------

  predicate IsBillingDay(billingDay: int, today: Date) {
    today.day == ResolveBillingDayForMonth(today.year, today.month, billingDay)
  }

  predicate Matches(inv: Invoice, contractId: nat, periodStart: Date) {
    inv.contractId == contractId && inv.periodStart == periodStart
  }

  predicate Blocks(inv: Invoice, contractId: nat, periodStart: Date) {
    Matches(inv, contractId, periodStart) && inv.status != VOIDED
  }

  predicate Billed(invoices: seq<Invoice>, contractId: nat, periodStart: Date) {
    exists i :: 0 <= i < |invoices| && Blocks(invoices[i], contractId, periodStart)
  }

  /** The invoice of a contract on its billing day, which is also when it falls due. */
  function RecurringInvoice(c: Contract, today: Date): Invoice {
    var amounts := Taxed(c.plan.monthlyPrice, c.plan);
    Invoice(c.id, PeriodStart(today), PeriodEnd(today), today, PENDING_PAYMENT, amounts, None)
  }

  function InitialInvoice(c: Contract, policy: ProrationDayCountPolicy): Invoice
    requires Modern(c.startDate)
  {
    Invoice(c.id, PeriodStart(c.startDate), PeriodEnd(c.startDate), c.startDate, PENDING_PAYMENT,
            Taxed(ProratedSubtotal(policy, c.startDate, c.plan.monthlyPrice), c.plan),
            Some(EffectiveDays(policy, c.startDate)))
  }

  /** Saving a new invoice under the unique index. */
  function Saved(invoices: seq<Invoice>, inv: Invoice): seq<Invoice> {
    if Billed(invoices, inv.contractId, inv.periodStart) then invoices else invoices + [inv]
  }

  /** One turn of the cycle; `fails` are the contracts whose save throws. */
  function GeneratedIfDue(invoices: seq<Invoice>, c: Contract, today: Date, fails: set<nat>): seq<Invoice> {
    if IsBillingDay(c.billingDay, today) && c.id !in fails
    then Saved(invoices, RecurringInvoice(c, today)) else invoices
  }

  function CycledOver(invoices: seq<Invoice>, contracts: seq<Contract>, today: Date, fails: set<nat>): seq<Invoice> {
    if contracts == [] then invoices
    else
      var before := CycledOver(invoices, contracts[..|contracts| - 1], today, fails);
      var last := contracts[|contracts| - 1];
      if last.active then GeneratedIfDue(before, last, today, fails) else before
  }

  // --- The service ------------------------------------------------------------------------

  datatype Outcome = Generated | Skipped | Failed

  /** The first row of a contract and period, voided or not. */
  function FirstMatch(invoices: seq<Invoice>, contractId: nat, periodStart: Date): Option<Invoice> {
    if invoices == [] then None
    else if Matches(invoices[0], contractId, periodStart) then Some(invoices[0])
    else FirstMatch(invoices[1..], contractId, periodStart)
  }

  /** `Failed` stands for the exception: the save throws, and no row found before stopped it. */
  function OutcomeOf(invoices: seq<Invoice>, c: Contract, today: Date, fails: set<nat>): Outcome {
    var existing := FirstMatch(invoices, c.id, PeriodStart(today));
    if !IsBillingDay(c.billingDay, today) || (existing.Some? && existing.value.status != VOIDED) then Skipped
    else if c.id in fails then Failed
    else if Billed(invoices, c.id, PeriodStart(today)) then Skipped
    else Generated
  }

  function Failures(invoices: seq<Invoice>, contracts: seq<Contract>, today: Date, fails: set<nat>): nat {
    if contracts == [] then 0
    else
      var front, last := contracts[..|contracts| - 1], contracts[|contracts| - 1];
      Failures(invoices, front, today, fails)
      + if last.active && OutcomeOf(CycledOver(invoices, front, today, fails), last, today, fails).Failed? then 1 else 0
  }

  lemma {:induction false} FirstMatchAt(invoices: seq<Invoice>, contractId: nat, periodStart: Date, i: nat)
    requires i <= |invoices| && (i < |invoices| ==> Matches(invoices[i], contractId, periodStart))
    requires forall k :: 0 <= k < i ==> !Matches(invoices[k], contractId, periodStart)
    ensures FirstMatch(invoices, contractId, periodStart) == if i < |invoices| then Some(invoices[i]) else None
  {
    if i > 0 { FirstMatchAt(invoices[1..], contractId, periodStart, i - 1); }
  }

  lemma {:induction false} FirstMatchBills(invoices: seq<Invoice>, contractId: nat, periodStart: Date)
    ensures var first := FirstMatch(invoices, contractId, periodStart);
      first.Some? && first.value.status != VOIDED ==> Billed(invoices, contractId, periodStart)
  {
    if invoices != [] {
      if Matches(invoices[0], contractId, periodStart) {
        assert invoices[0].status != VOIDED ==> Blocks(invoices[0], contractId, periodStart);
      } else {
        FirstMatchBills(invoices[1..], contractId, periodStart);
        if Billed(invoices[1..], contractId, periodStart) {
          var i :| 0 <= i < |invoices[1..]| && Blocks(invoices[1..][i], contractId, periodStart);
          assert Blocks(invoices[i + 1], contractId, periodStart);
        }
      }
    }
  }

  datatype CycleResult = CycleResult(generated: nat, skipped: nat, failed: nat)

  class BillingCycleService {
    var contracts: seq<Contract>
    var invoices: seq<Invoice>

    /** `save`: false when the unique index refuses the row. */
    method Save(inv: Invoice) returns (ok: bool)
      modifies this`invoices
      ensures invoices == Saved(old(invoices), inv)
      ensures ok <==> invoices == old(invoices) + [inv]
    {
      if Billed(invoices, inv.contractId, inv.periodStart) {
        assert |invoices| != |invoices + [inv]|;
        return false;
      }
      invoices := invoices + [inv];
      ok := true;
    }

    method FindOne(contractId: nat, periodStart: Date) returns (found: Option<Invoice>)
      ensures found == FirstMatch(invoices, contractId, periodStart)
    {
      for i := 0 to |invoices|
        invariant forall k :: 0 <= k < i ==> !Matches(invoices[k], contractId, periodStart)
      {
        if Matches(invoices[i], contractId, periodStart) {
          FirstMatchAt(invoices, contractId, periodStart, i);
          return Some(invoices[i]);
        }
      }
      FirstMatchAt(invoices, contractId, periodStart, |invoices|);
      found := None;
    }

    method GenerateInvoiceForContractIfDue(c: Contract, today: Date, fails: set<nat>) returns (r: Outcome)
      modifies this`invoices
      ensures invoices == GeneratedIfDue(old(invoices), c, today, fails)
      ensures r == OutcomeOf(old(invoices), c, today, fails)
      ensures r.Generated? <==> |invoices| == |old(invoices)| + 1
    {
      hide Taxed, DaysInMonth, FirstMatch, Billed;
      FirstMatchBills(invoices, c.id, PeriodStart(today));
      var targetDay := ResolveBillingDayForMonth(today.year, today.month, c.billingDay);
      if today.day != targetDay { return Skipped; }
      var periodStart, periodEnd := PeriodStart(today), PeriodEnd(today);
      var due := Date(today.year, today.month, targetDay);
      var existing := FindOne(c.id, periodStart);
      if existing.Some? && existing.value.status != VOIDED { return Skipped; }
      var amounts := Taxed(c.plan.monthlyPrice, c.plan);
      if c.id in fails { return Failed; }
      var ok := Save(Invoice(c.id, periodStart, periodEnd, due, PENDING_PAYMENT, amounts, None));
      r := if ok then Generated else Skipped;
    }

    /** A contract that fails is counted and the next one is taken. */
    method RunBillingCycle(today: Date, fails: set<nat>) returns (r: CycleResult)
      modifies this`invoices
      ensures invoices == CycledOver(old(invoices), contracts, today, fails)
      ensures r.generated == |invoices| - |old(invoices)|
      ensures r.generated + r.skipped + r.failed == |ActiveOnly(contracts)|
      ensures r.failed == Failures(old(invoices), contracts, today, fails)
    {
      hide GeneratedIfDue, OutcomeOf;
      var generated, skipped, failed := 0, 0, 0;
      for k := 0 to |contracts|
        invariant invoices == CycledOver(old(invoices), contracts[..k], today, fails)
        invariant generated == |invoices| - |old(invoices)|
        invariant generated + skipped + failed == |ActiveOnly(contracts[..k])|
        invariant failed == Failures(old(invoices), contracts[..k], today, fails)
      {
        assert contracts[..k + 1][..k] == contracts[..k];
        var contract := contracts[k];
        if contract.active {
          GrowsByOne(invoices, contract, today, fails);
          var was := GenerateInvoiceForContractIfDue(contract, today, fails);
          match was
          case Generated => generated := generated + 1;
          case Skipped => skipped := skipped + 1;
          case Failed => failed := failed + 1;
        }
      }
      assert contracts[..|contracts|] == contracts;
      r := CycleResult(generated, skipped, failed);
    }

    method GenerateInitialProratedInvoiceIfNeeded(c: Contract, policy: ProrationDayCountPolicy)
      returns (saved: Option<Invoice>)
      requires Modern(c.startDate)
      modifies this`invoices
      ensures invoices == Saved(old(invoices), InitialInvoice(c, policy))
      ensures saved == if |invoices| > |old(invoices)| then Some(InitialInvoice(c, policy)) else None
    {
      hide Date.Valid, Billed, Taxed, Round, DaysInMonth, DayNumber;
      var start := c.startDate;
      var periodStart, periodEnd := PeriodStart(start), PeriodEnd(start);
      PeriodIsValid(start);
      hide PeriodStart, PeriodEnd;
      var cycleDays := ResolveProrationDayCount(policy, periodStart, periodEnd);
      assert cycleDays == CycleDays(policy, start);
      hide CycleDays, ResolveProrationDayCount;
      var rawDaysUsed := DaysBetween(periodEnd, start) + 1;
      var effectiveDaysUsed := if rawDaysUsed < cycleDays then rawDaysUsed else cycleDays;
      assert effectiveDaysUsed == EffectiveDays(policy, start);
      hide EffectiveDays, DaysBetween;
      var subtotal := Round(c.plan.monthlyPrice * effectiveDaysUsed, cycleDays);
      var inv :=
        Invoice(c.id, periodStart, periodEnd, start, PENDING_PAYMENT, Taxed(subtotal, c.plan), Some(effectiveDaysUsed));
      var ok := Save(inv);
      saved := if ok then Some(inv) else None;
    }
  }

  lemma {:induction false} NoFailures(invoices: seq<Invoice>, contracts: seq<Contract>, today: Date)
    ensures Failures(invoices, contracts, today, {}) == 0
  {
    if contracts != [] { NoFailures(invoices, contracts[..|contracts| - 1], today); }
  }

  function ActiveOnly(contracts: seq<Contract>): seq<Contract> {
    if contracts == [] then []
    else
      var last := contracts[|contracts| - 1];
      ActiveOnly(contracts[..|contracts| - 1]) + if last.active then [last] else []
  }

  lemma GrowsByOne(invoices: seq<Invoice>, c: Contract, today: Date, fails: set<nat>)
    ensures |invoices| <= |GeneratedIfDue(invoices, c, today, fails)| <= |invoices| + 1
  {}

  // --- One billing day a month ----------------------------------------------------------------

  /** A month has a billing day if and only if the contract's day is at least 1, and then exactly one:
      that day, or the last one of a shorter month. */
  lemma OneBillingDay(year: int, month: nat, billingDay: int, day: nat)
    requires month < 12 && year >= 100 && 1 <= day <= MonthLength(year, month)
    ensures IsBillingDay(billingDay, Date(year, month, day)) <==>
      day == if billingDay < MonthLength(year, month) then billingDay else MonthLength(year, month)
  {
    DaysInMonthIsLength(year, month);
  }

  /** The billing periods tile the calendar: a day lies in the period of another exactly when both are in
      the same month, and the day after a period begins the next one. */
  lemma PeriodsTile(c: Date, d: Date)
    requires Modern(c) && Modern(d)
    ensures PeriodStart(c).Valid() && PeriodEnd(c).Valid()
    ensures DaysBetween(d, PeriodStart(c)) >= 0 && DaysBetween(PeriodEnd(c), d) >= 0
      <==> PeriodStart(d) == PeriodStart(c)
    ensures var next := NextDay(PeriodEnd(c)); PeriodStart(next) == next
  {
    hide DayNumber, IsLeap, DaysInMonth;
    PeriodIsValid(c);
    if Before(d, PeriodStart(c)) { DayNumberOrder(d, PeriodStart(c)); }
    if Before(PeriodStart(c), d) { DayNumberOrder(PeriodStart(c), d); }
    if Before(PeriodEnd(c), d) { DayNumberOrder(PeriodEnd(c), d); }
    if Before(d, PeriodEnd(c)) { DayNumberOrder(d, PeriodEnd(c)); }
  }

  // --- At most one invoice per period --------------------------------------------------------------

  ghost predicate AtMostOne(invoices: seq<Invoice>) {
    forall i, j :: 0 <= i < j < |invoices| && invoices[i].status != VOIDED ==>
      !Blocks(invoices[j], invoices[i].contractId, invoices[i].periodStart)
  }

  datatype Event =
    | Cycle(contracts: seq<Contract>, today: Date, fails: set<nat>)
    | Initial(contract: Contract, policy: ProrationDayCountPolicy)
    | SetStatus(i: nat, status: Status)

  /** A voided invoice stays voided. */
  function Step(invoices: seq<Invoice>, e: Event): seq<Invoice> {
    match e
    case Cycle(contracts, today, fails) => CycledOver(invoices, contracts, today, fails)
    case Initial(c, policy) => if Modern(c.startDate) then Saved(invoices, InitialInvoice(c, policy)) else invoices
    case SetStatus(i, status) =>
      if i < |invoices| && invoices[i].status != VOIDED then invoices[i := invoices[i].(status := status)] else invoices
  }

  function Run(events: seq<Event>): seq<Invoice> {
    if events == [] then [] else Step(Run(events[..|events| - 1]), events[|events| - 1])
  }

  lemma SavedKeeps(invoices: seq<Invoice>, inv: Invoice)
    requires AtMostOne(invoices)
    ensures AtMostOne(Saved(invoices, inv))
  {
    if !Billed(invoices, inv.contractId, inv.periodStart) {
      forall i | 0 <= i < |invoices| && invoices[i].status != VOIDED
        ensures !Blocks(inv, invoices[i].contractId, invoices[i].periodStart)
      {
        assert !Blocks(invoices[i], inv.contractId, inv.periodStart);
      }
    }
  }

  lemma {:induction false} CycledKeeps(invoices: seq<Invoice>, contracts: seq<Contract>, today: Date, fails: set<nat>)
    requires AtMostOne(invoices)
    ensures AtMostOne(CycledOver(invoices, contracts, today, fails))
  {
    hide AtMostOne, Saved;
    if contracts != [] {
      var before := CycledOver(invoices, contracts[..|contracts| - 1], today, fails);
      CycledKeeps(invoices, contracts[..|contracts| - 1], today, fails);
      SavedKeeps(before, RecurringInvoice(contracts[|contracts| - 1], today));
    }
  }

  /** In every run of cycles, initial invoices, payments and voidings, no contract has two invoices of
      one period that are not voided. */
  lemma {:induction false} NeverTwoInvoices(events: seq<Event>)
    ensures AtMostOne(Run(events))
  {
    if events != [] {
      var before, e := Run(events[..|events| - 1]), events[|events| - 1];
      NeverTwoInvoices(events[..|events| - 1]);
      match e
      case Cycle(contracts, today, fails) => CycledKeeps(before, contracts, today, fails);
      case Initial(c, policy) => if Modern(c.startDate) { SavedKeeps(before, InitialInvoice(c, policy)); }
      case SetStatus(i, status) =>
    }
  }

  // --- Exactly one, when the cycle runs on the billing day ------------------------------------------------

  lemma SavedBills(invoices: seq<Invoice>, inv: Invoice, contractId: nat, periodStart: Date)
    requires inv.status != VOIDED
    ensures Billed(Saved(invoices, inv), contractId, periodStart) <==>
      Billed(invoices, contractId, periodStart) || Matches(inv, contractId, periodStart)
  {
    var after := Saved(invoices, inv);
    if Billed(invoices, contractId, periodStart) {
      var i :| 0 <= i < |invoices| && Blocks(invoices[i], contractId, periodStart);
      assert Blocks(after[i], contractId, periodStart);
    }
    if after == invoices + [inv] && Matches(inv, contractId, periodStart) {
      assert Blocks(after[|invoices|], contractId, periodStart);
    }
  }

  predicate Bills(c: Contract, contractId: nat, today: Date) {
    c.active && c.id == contractId && IsBillingDay(c.billingDay, today)
  }

  /** What bills a period: a cycle on the contract's billing day in that month, whose save does not throw,
      or the first invoice of a contract that starts in that month. */
  ghost predicate BillsIn(e: Event, contractId: nat, periodStart: Date) {
    match e
    case Cycle(contracts, today, fails) =>
      PeriodStart(today) == periodStart && contractId !in fails
      && exists c :: c in contracts && Bills(c, contractId, today)
    case Initial(c, policy) => Modern(c.startDate) && c.id == contractId && PeriodStart(c.startDate) == periodStart
    case SetStatus(i, status) => false
  }

  /** What undoes it: voiding the invoice that counts. */
  predicate VoidsIn(invoices: seq<Invoice>, e: Event, contractId: nat, periodStart: Date) {
    e.SetStatus? && e.status == VOIDED && e.i < |invoices| && Blocks(invoices[e.i], contractId, periodStart)
  }

  lemma BillsInLast(contracts: seq<Contract>, today: Date, fails: set<nat>, contractId: nat, periodStart: Date)
    requires contracts != []
    ensures var front, last := contracts[..|contracts| - 1], contracts[|contracts| - 1];
      BillsIn(Cycle(contracts, today, fails), contractId, periodStart) <==>
        BillsIn(Cycle(front, today, fails), contractId, periodStart)
        || (PeriodStart(today) == periodStart && contractId !in fails && Bills(last, contractId, today))
  {
    hide Bills;
    var front, last := contracts[..|contracts| - 1], contracts[|contracts| - 1];
    assert contracts == front + [last];
    if BillsIn(Cycle(front, today, fails), contractId, periodStart) {
      var c :| c in front && Bills(c, contractId, today);
      assert c in contracts;
    }
  }

  lemma {:induction false} CycledBills(invoices: seq<Invoice>, contracts: seq<Contract>, today: Date, fails: set<nat>,
                                       contractId: nat, periodStart: Date)
    ensures Billed(CycledOver(invoices, contracts, today, fails), contractId, periodStart) <==>
      Billed(invoices, contractId, periodStart) || BillsIn(Cycle(contracts, today, fails), contractId, periodStart)
  {
    hide Billed, Saved, IsBillingDay, BillsIn, PeriodStart, PeriodEnd, Taxed;
    if contracts == [] {
      NothingToBill(today, fails, contractId, periodStart);
    } else {
      var front, last := contracts[..|contracts| - 1], contracts[|contracts| - 1];
      CycledBills(invoices, front, today, fails, contractId, periodStart);
      BillsInLast(contracts, today, fails, contractId, periodStart);
      SavedBills(CycledOver(invoices, front, today, fails), RecurringInvoice(last, today), contractId, periodStart);
    }
  }

  lemma NothingToBill(today: Date, fails: set<nat>, contractId: nat, periodStart: Date)
    ensures !BillsIn(Cycle([], today, fails), contractId, periodStart)
  {}

  lemma SetStatusBills(invoices: seq<Invoice>, e: Event, contractId: nat, periodStart: Date)
    requires AtMostOne(invoices) && e.SetStatus?
    ensures Billed(Step(invoices, e), contractId, periodStart) <==>
      Billed(invoices, contractId, periodStart) && !VoidsIn(invoices, e, contractId, periodStart)
  {
    var after := Step(invoices, e);
    if Billed(invoices, contractId, periodStart) && !VoidsIn(invoices, e, contractId, periodStart) {
      var k :| 0 <= k < |invoices| && Blocks(invoices[k], contractId, periodStart);
      assert Blocks(after[k], contractId, periodStart);
    }
    if k :| 0 <= k < |after| && Blocks(after[k], contractId, periodStart) {
      assert Blocks(invoices[k], contractId, periodStart);
    }
  }

  lemma StepBills(invoices: seq<Invoice>, e: Event, contractId: nat, periodStart: Date)
    requires AtMostOne(invoices)
    ensures Billed(Step(invoices, e), contractId, periodStart) <==>
      BillsIn(e, contractId, periodStart)
        || (Billed(invoices, contractId, periodStart) && !VoidsIn(invoices, e, contractId, periodStart))
  {
    hide AtMostOne, Billed, CycledOver, Saved, PeriodStart, PeriodEnd, Taxed, ProratedSubtotal, EffectiveDays;
    match e
    case Cycle(contracts, today, fails) => CycledBills(invoices, contracts, today, fails, contractId, periodStart);
    case Initial(c, policy) =>
      if Modern(c.startDate) { SavedBills(invoices, InitialInvoice(c, policy), contractId, periodStart); }
    case SetStatus(i, status) => SetStatusBills(invoices, e, contractId, periodStart);
  }

  /** The event `k` bills the period and nothing voids that afterwards. */
  ghost predicate BilledBy(events: seq<Event>, k: nat, contractId: nat, periodStart: Date) {
    k < |events| && BillsIn(events[k], contractId, periodStart)
    && forall j :: k < j < |events| ==> !VoidsIn(Run(events[..j]), events[j], contractId, periodStart)
  }

  lemma BilledByEarlier(events: seq<Event>, k: nat, contractId: nat, periodStart: Date)
    requires events != [] && k < |events| - 1
    ensures var front, last := events[..|events| - 1], events[|events| - 1];
      BilledBy(events, k, contractId, periodStart) <==>
        BilledBy(front, k, contractId, periodStart) && !VoidsIn(Run(front), last, contractId, periodStart)
  {
    hide BillsIn, VoidsIn, Run;
    var front := events[..|events| - 1];
    assert forall j :: 0 <= j <= |front| ==> front[..j] == events[..j];
    if BilledBy(front, k, contractId, periodStart)
      && !VoidsIn(Run(front), events[|events| - 1], contractId, periodStart) {
      forall j | k < j < |events| ensures !VoidsIn(Run(events[..j]), events[j], contractId, periodStart) {
        if j < |front| { assert front[..j] == events[..j] && front[j] == events[j]; }
      }
    }
  }

  /** In every run, whatever happens to contracts and invoices between the cycles, a period is billed if and
      only if some event billed it and its invoice was not voided since. What fails for other contracts
      makes no difference. */
  lemma {:induction false} BilledExactly(events: seq<Event>, contractId: nat, periodStart: Date)
    ensures Billed(Run(events), contractId, periodStart)
      <==> exists k: nat :: BilledBy(events, k, contractId, periodStart)
  {
    hide Billed, BillsIn, VoidsIn, Step, BilledBy;
    if events == [] {
      NothingBilled(contractId, periodStart);
    } else {
      var front, last := events[..|events| - 1], events[|events| - 1];
      BilledExactly(front, contractId, periodStart);
      NeverTwoInvoices(front);
      StepBills(Run(front), last, contractId, periodStart);
      forall k: nat
        ensures BilledBy(events, k, contractId, periodStart) <==>
          (k == |front| && BillsIn(last, contractId, periodStart))
          || (BilledBy(front, k, contractId, periodStart) && !VoidsIn(Run(front), last, contractId, periodStart))
      {
        BilledByAt(events, k, contractId, periodStart);
      }
      assert BillsIn(last, contractId, periodStart) ==> BilledBy(events, |front|, contractId, periodStart);
      if k: nat :| BilledBy(front, k, contractId, periodStart) {
        assert !VoidsIn(Run(front), last, contractId, periodStart) ==> BilledBy(events, k, contractId, periodStart);
      }
    }
  }

  lemma NothingBilled(contractId: nat, periodStart: Date)
    ensures !Billed(Run([]), contractId, periodStart) && forall k: nat :: !BilledBy([], k, contractId, periodStart)
  {}

  lemma BilledByAt(events: seq<Event>, k: nat, contractId: nat, periodStart: Date)
    requires events != []
    ensures var front, last := events[..|events| - 1], events[|events| - 1];
      BilledBy(events, k, contractId, periodStart) <==>
        (k == |front| && BillsIn(last, contractId, periodStart))
        || (BilledBy(front, k, contractId, periodStart) && !VoidsIn(Run(front), last, contractId, periodStart))
  {
    hide BillsIn, VoidsIn, Run;
    if k < |events| - 1 { BilledByEarlier(events, k, contractId, periodStart); }
  }

  /** How many invoices of a contract and period are not voided. */
  function Count(invoices: seq<Invoice>, contractId: nat, periodStart: Date): nat {
    if invoices == [] then 0
    else Count(invoices[..|invoices| - 1], contractId, periodStart)
         + if Blocks(invoices[|invoices| - 1], contractId, periodStart) then 1 else 0
  }

  lemma {:induction false} CountIsOne(invoices: seq<Invoice>, contractId: nat, periodStart: Date)
    requires AtMostOne(invoices)
    ensures Count(invoices, contractId, periodStart) == if Billed(invoices, contractId, periodStart) then 1 else 0
  {
    if invoices != [] {
      var front := invoices[..|invoices| - 1];
      CountIsOne(front, contractId, periodStart);
      if Billed(front, contractId, periodStart) {
        var i :| 0 <= i < |front| && Blocks(front[i], contractId, periodStart);
        assert Blocks(invoices[i], contractId, periodStart);
      }
    }
  }

  /** On this day of a month a cycle ran that found the contract active, and its save did not throw. */
  ghost predicate CycledOn(events: seq<Event>, k: nat, contractId: nat, billingDay: int, today: Date) {
    k < |events| && events[k].Cycle? && events[k].today == today && contractId !in events[k].fails
    && exists c :: c in events[k].contracts && c.active && c.id == contractId && c.billingDay == billingDay
  }

  /** In every run with cycles on all days of a month, any number of times and in any order, among new
      contracts, changes of others, first invoices, payments and voidings of other invoices, a contract
      that those cycles find active has exactly one invoice of that month that is not voided. */
  lemma EveryDayBillsOnce(events: seq<Event>, year: int, month: nat, contractId: nat, billingDay: int)
    requires month < 12 && year >= 100 && 1 <= billingDay <= 31
    requires forall day :: 1 <= day <= MonthLength(year, month) ==>
      exists k: nat :: CycledOn(events, k, contractId, billingDay, Date(year, month, day))
    requires forall j :: 0 <= j < |events| ==> !VoidsIn(Run(events[..j]), events[j], contractId, Date(year, month, 1))
    ensures Count(Run(events), contractId, Date(year, month, 1)) == 1
  {
    hide AtMostOne, Billed, IsBillingDay, Run, Count, VoidsIn;
    var day := if billingDay < MonthLength(year, month) then billingDay else MonthLength(year, month);
    OneBillingDay(year, month, billingDay, day);
    var k: nat :| CycledOn(events, k, contractId, billingDay, Date(year, month, day));
    var c :| c in events[k].contracts && c.active && c.id == contractId && c.billingDay == billingDay;
    assert Bills(c, contractId, events[k].today);
    assert BilledBy(events, k, contractId, Date(year, month, 1));
    BilledExactly(events, contractId, Date(year, month, 1));
    NeverTwoInvoices(events);
    CountIsOne(Run(events), contractId, Date(year, month, 1));
  }

  // --- Proration -----------------------------------------------------------------------------------------------

  lemma MulMono(a: nat, b: nat, d: nat)
    requires a <= b
    ensures a * d <= b * d
  {}

  lemma RoundMono(a: nat, b: nat, d: nat)
    requires a <= b && d > 0
    ensures Round(a, d) <= Round(b, d)
  {
    QuotientAtMost(2 * a + d, 2 * d, (2 * b + d) / (2 * d));
  }

  lemma RoundExact(a: nat, d: nat)
    requires d > 0
    ensures Round(a * d, d) == a
  {
    var m := 2 * d;
    assert 2 * (a * d) + d == a * m + d;
    QuotientIs(a * m + d, m, a);
  }

  lemma QuotientAtMost(x: nat, m: nat, q: nat)
    requires m > 0 && x < q * m + m
    ensures x / m <= q
  {
    var r := x / m;
    assert (q + 1) * m == q * m + m && r * m <= x;
    if r > q { MulMono(q + 1, r, m); }
  }

  lemma QuotientAtLeast(x: nat, m: nat, q: nat)
    requires m > 0 && q * m <= x
    ensures x / m >= q
  {
    var r := x / m;
    assert (r + 1) * m == r * m + m && x < r * m + m;
    if r < q { MulMono(r + 1, q, m); }
  }

  lemma QuotientIs(x: nat, m: nat, q: nat)
    requires m > 0 && q * m <= x < q * m + m
    ensures x / m == q
  {
    QuotientAtMost(x, m, q);
    QuotientAtLeast(x, m, q);
  }

  /** The first invoice charges between nothing and the monthly price, and the full price when every
      day of the cycle is charged. */
  lemma ProratedWithinPrice(policy: ProrationDayCountPolicy, start: Date, price: nat)
    requires Modern(start)
    ensures 0 <= ProratedSubtotal(policy, start, price) <= price
    ensures EffectiveDays(policy, start) == CycleDays(policy, start) ==> ProratedSubtotal(policy, start, price) == price
  {
    hide EffectiveDays, CycleDays, Round;
    var used, cycle := EffectiveDays(policy, start), CycleDays(policy, start);
    MulMono(used, cycle, price);
    assert price * used <= price * cycle;
    RoundMono(price * used, price * cycle, cycle);
    RoundExact(price, cycle);
  }

  /** Starting earlier in a month never costs less, taxes included. */
  lemma EarlierNeverCheaper(policy: ProrationDayCountPolicy, earlier: Date, later: Date, plan: Plan)
    requires Modern(earlier) && Modern(later) && PeriodStart(earlier) == PeriodStart(later) && earlier.day <= later.day
    ensures ProratedSubtotal(policy, later, plan.monthlyPrice) <= ProratedSubtotal(policy, earlier, plan.monthlyPrice)
    ensures Taxed(ProratedSubtotal(policy, later, plan.monthlyPrice), plan).grandTotal
         <= Taxed(ProratedSubtotal(policy, earlier, plan.monthlyPrice), plan).grandTotal
  {
    hide EffectiveDays, CycleDays, Round, Taxed, Date.Valid;
    var price := plan.monthlyPrice;
    EarlierHasMoreDays(policy, earlier, later);
    var a, b := EffectiveDays(policy, later), EffectiveDays(policy, earlier);
    MulMono(a, b, price);
    assert price * a <= price * b;
    RoundMono(price * a, price * b, CycleDays(policy, later));
    TaxedMono(ProratedSubtotal(policy, later, price), ProratedSubtotal(policy, earlier, price), plan);
  }

  lemma EarlierHasMoreDays(policy: ProrationDayCountPolicy, earlier: Date, later: Date)
    requires Modern(earlier) && Modern(later) && PeriodStart(earlier) == PeriodStart(later) && earlier.day <= later.day
    ensures CycleDays(policy, later) == CycleDays(policy, earlier)
    ensures EffectiveDays(policy, later) <= EffectiveDays(policy, earlier)
  {
    hide EffectiveDays, CycleDays, IsLeap;
  }

  /** Both invoices of a month cover exactly that month and fall due inside it. */
  lemma InvoicesCoverTheirMonth(c: Contract, policy: ProrationDayCountPolicy, today: Date)
    requires Modern(today) && Modern(c.startDate)
    ensures forall inv :: inv == RecurringInvoice(c, today) || inv == InitialInvoice(c, policy) ==>
      Covers(inv) && inv.contractId == c.id && inv.status == PENDING_PAYMENT
    ensures RecurringInvoice(c, today).dueDate == today && InitialInvoice(c, policy).dueDate == c.startDate
  {
    hide DayNumber, IsLeap, DaysInMonth, Taxed, ProratedSubtotal, EffectiveDays;
    PeriodsTile(today, today);
    PeriodsTile(c.startDate, c.startDate);
  }

  predicate Covers(inv: Invoice) {
    inv.periodStart.Valid() && inv.periodEnd.Valid() && inv.dueDate.Valid()
    && inv.periodStart.day == 1 && NextDay(inv.periodEnd).day == 1
    && inv.periodStart.year == inv.periodEnd.year && inv.periodStart.month == inv.periodEnd.month
    && DaysBetween(inv.dueDate, inv.periodStart) >= 0 && DaysBetween(inv.periodEnd, inv.dueDate) >= 0
  }

  /** When all days of the cycle are charged: counting real days, for a start on the first of the month;
      under FIXED_30 while 30 days are left, so not for the first of February. */
  predicate WholeCycle(policy: ProrationDayCountPolicy, start: Date)
    requires start.Valid()
  {
    if policy == FIXED_30 then MonthLength(start.year, start.month) - start.day + 1 >= 30 else start.day == 1
  }

  lemma WholeCycleExactly(policy: ProrationDayCountPolicy, start: Date)
    requires Modern(start)
    ensures EffectiveDays(policy, start) == CycleDays(policy, start) <==> WholeCycle(policy, start)
  {
    hide IsLeap, EffectiveDays, CycleDays;
  }

  /** The first invoice never costs more than the recurring one of the same plan, and as much when the
      whole cycle is charged. */
  lemma FirstNeverExceedsRecurring(c: Contract, policy: ProrationDayCountPolicy, today: Date)
    requires Modern(c.startDate)
    ensures var first, recurring := InitialInvoice(c, policy).amounts, RecurringInvoice(c, today).amounts;
      first.grandTotal <= recurring.grandTotal && (WholeCycle(policy, c.startDate) ==> first == recurring)
  {
    hide Taxed, ProratedSubtotal, EffectiveDays, CycleDays, PeriodStart, PeriodEnd, Date.Valid, WholeCycle;
    ProratedWithinPrice(policy, c.startDate, c.plan.monthlyPrice);
    TaxedMono(ProratedSubtotal(policy, c.startDate, c.plan.monthlyPrice), c.plan.monthlyPrice, c.plan);
    WholeCycleExactly(policy, c.startDate);
  }

  lemma TaxedMono(x: nat, y: nat, plan: Plan)
    requires x <= y
    ensures Taxed(x, plan).grandTotal <= Taxed(y, plan).grandTotal
  {
    hide Round;
    MulMono(x, y, plan.itbisRate); MulMono(x, y, plan.cdtRate); MulMono(x, y, plan.iscRate);
    RoundMono(x * plan.itbisRate, y * plan.itbisRate, 100);
    RoundMono(x * plan.cdtRate, y * plan.cdtRate, 100);
    RoundMono(x * plan.iscRate, y * plan.iscRate, 100);
  }
}

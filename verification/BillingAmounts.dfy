/** What the invoices of src/modules/billing/billing-cycle.service.ts charge and what the cycle counts, said without
    the functions that compute it. */
module BillingAmounts {
  import opened Wrappers
  import opened BillingDate
  import opened BillingCycle

  /** `x` is the whole number nearest to `n / d`, half up. */
  predicate Nearest(x: int, n: int, d: int) { -d < 2 * d * x - 2 * n <= d }

  /** A tax in cents at a whole percentage. */
  predicate TaxAt(tax: int, subtotal: int, rate: int) { -50 < 100 * tax - subtotal * rate <= 50 }

  /** Each tax by its own rate, and all of them in the total. */
  predicate Charged(a: Amounts, plan: Plan) {
    && a.grandTotal == a.subtotal + a.itbis + a.cdt + a.isc
    && TaxAt(a.itbis, a.subtotal, plan.itbisRate)
    && TaxAt(a.cdt, a.subtotal, plan.cdtRate)
    && TaxAt(a.isc, a.subtotal, plan.iscRate)
  }

  lemma RoundIsNearest(n: nat, d: nat)
    requires d > 0
    ensures Nearest(Round(n, d), n, d)
  {
    var m := 2 * d;
    var q := (2 * n + d) / m;
    assert q * m <= 2 * n + d < q * m + m;
  }

  lemma TaxedIsCharged(subtotal: nat, plan: Plan)
    ensures Charged(Taxed(subtotal, plan), plan) && Taxed(subtotal, plan).subtotal == subtotal
  {
    hide Round;
    RoundIsNearest(subtotal * plan.itbisRate, 100);
    RoundIsNearest(subtotal * plan.cdtRate, 100);
    RoundIsNearest(subtotal * plan.iscRate, 100);
  }

  /** Of the month of a day, from its first day to its last. */
  predicate OfMonth(inv: Invoice, d: Date)
    requires d.Valid()
  {
    inv.periodStart == Date(d.year, d.month, 1) && inv.periodEnd == Date(d.year, d.month, MonthLength(d.year, d.month))
  }

  function Min(a: int, b: int): int { if a < b then a else b }

  /** The recurring invoice of a contract: the monthly price with its taxes, due on the day of the contract or the
      last day of a shorter month. */
  predicate RecurringFor(inv: Invoice, c: Contract, today: Date) {
    && today.Valid() && c.active && inv.contractId == c.id && inv.dueDate == today
    && OfMonth(inv, today) && inv.proratedDays.None?
    && today.day == Min(c.billingDay, MonthLength(today.year, today.month))
    && inv.amounts.subtotal == c.plan.monthlyPrice && Charged(inv.amounts, c.plan)
  }

  /** The first invoice of a contract: the part of the price for the days left in the month of its start, never for
      more days than the cycle has. */
  predicate FirstFor(inv: Invoice, c: Contract, policy: ProrationDayCountPolicy) {
    var start := c.startDate;
    var length := MonthLength(start.year, start.month);
    var cycle := if policy == FIXED_30 then 30 else length;
    var used := Min(length - start.day + 1, cycle);
    && inv.contractId == c.id && inv.dueDate == start && OfMonth(inv, start) && inv.proratedDays == Some(used)
    && Nearest(inv.amounts.subtotal, c.plan.monthlyPrice * used, cycle) && Charged(inv.amounts, c.plan)
  }

  lemma RecurringIs(c: Contract, today: Date)
    requires Modern(today) && c.active && IsBillingDay(c.billingDay, today)
    ensures RecurringFor(RecurringInvoice(c, today), c, today)
    ensures RecurringInvoice(c, today).status == PENDING_PAYMENT
  {
    hide Taxed, Charged, IsBillingDay, DaysInMonth, MonthLength;
    PeriodIsValid(today);
    ValidDay(today);
    OneBillingDay(today.year, today.month, c.billingDay, today.day);
    TaxedIsCharged(c.plan.monthlyPrice, c.plan);
  }

  lemma ValidDay(d: Date)
    requires d.Valid()
    ensures d.month < 12 && 1 <= d.day <= MonthLength(d.year, d.month)
  {}

  lemma FirstIs(c: Contract, policy: ProrationDayCountPolicy)
    requires Modern(c.startDate)
    ensures FirstFor(InitialInvoice(c, policy), c, policy)
    ensures InitialInvoice(c, policy).status == PENDING_PAYMENT
  {
    hide Taxed, Charged, Round, EffectiveDays, CycleDays, DaysInMonth, MonthLength, Nearest;
    var start := c.startDate;
    PeriodIsValid(start);
    RoundIsNearest(c.plan.monthlyPrice * EffectiveDays(policy, start), CycleDays(policy, start));
    TaxedIsCharged(ProratedSubtotal(policy, start, c.plan.monthlyPrice), c.plan);
  }

  ghost predicate RecurringOf(inv: Invoice, contracts: seq<Contract>, today: Date) {
    exists c :: c in contracts && RecurringFor(inv, c, today)
  }

  lemma OfMoreContracts(inv: Invoice, front: seq<Contract>, contracts: seq<Contract>, today: Date)
    requires RecurringOf(inv, front, today) && front <= contracts
    ensures RecurringOf(inv, contracts, today)
  {
    var c :| c in front && RecurringFor(inv, c, today);
    assert c in contracts;
  }

  /** Every row a cycle adds is the recurring invoice of an active contract on its billing day, and the rows before
      stay as they were. */
  lemma {:induction false} CycleCharges(invoices: seq<Invoice>, contracts: seq<Contract>, today: Date, fails: set<nat>)
    requires Modern(today)
    ensures var after := CycledOver(invoices, contracts, today, fails);
      && invoices <= after
      && forall i :: |invoices| <= i < |after| ==>
           after[i].status == PENDING_PAYMENT && after[i].contractId !in fails
           && RecurringOf(after[i], contracts, today)
  {
    hide RecurringFor, RecurringOf, RecurringInvoice, IsBillingDay, Billed, Modern;
    if contracts != [] {
      var front, last := contracts[..|contracts| - 1], contracts[|contracts| - 1];
      CycleCharges(invoices, front, today, fails);
      var before, after := CycledOver(invoices, front, today, fails), CycledOver(invoices, contracts, today, fails);
      if last.active && IsBillingDay(last.billingDay, today) {
        RecurringIs(last, today);
        OwnContract(last, today);
        OfLast(RecurringInvoice(last, today), contracts, today);
      }
      forall i | |invoices| <= i < |before| ensures RecurringOf(before[i], contracts, today) {
        OfMoreContracts(before[i], front, contracts, today);
      }
    }
  }

  lemma OfLast(inv: Invoice, contracts: seq<Contract>, today: Date)
    requires contracts != [] && RecurringFor(inv, contracts[|contracts| - 1], today)
    ensures RecurringOf(inv, contracts, today)
  {
    assert contracts[|contracts| - 1] in contracts;
  }

  lemma OwnContract(c: Contract, today: Date)
    ensures RecurringInvoice(c, today).contractId == c.id
  {}

  /** What event of a run a row comes from. */
  ghost predicate ComesFrom(inv: Invoice, e: Event) {
    match e
    case Cycle(contracts, today, fails) => RecurringOf(inv, contracts, today)
    case Initial(c, policy) => FirstFor(inv, c, policy)
    case SetStatus(i, status) => false
  }

  /** The cycles of a run are of the years JavaScript reads as written. */
  ghost predicate ModernCycles(events: seq<Event>) {
    forall k :: 0 <= k < |events| && events[k].Cycle? ==> Modern(events[k].today)
  }

  lemma SameSource(a: Invoice, b: Invoice, e: Event)
    requires ComesFrom(a, e) && b == a.(status := b.status)
    ensures ComesFrom(b, e)
  {
    if e.Cycle? {
      var c :| c in e.contracts && RecurringFor(a, c, e.today);
      assert RecurringFor(b, c, e.today);
    }
  }

  lemma StepCharges(invoices: seq<Invoice>, e: Event, i: nat)
    requires i < |Step(invoices, e)| && (e.Cycle? ==> Modern(e.today))
    ensures i < |invoices| ==> Step(invoices, e)[i] == invoices[i].(status := Step(invoices, e)[i].status)
    ensures i >= |invoices| ==> ComesFrom(Step(invoices, e)[i], e)
  {
    hide CycledOver, RecurringOf, FirstFor, InitialInvoice, Billed;
    match e
    case Cycle(contracts, today, fails) => CycleCharges(invoices, contracts, today, fails);
    case Initial(c, policy) => if Modern(c.startDate) { FirstIs(c, policy); }
    case SetStatus(k, status) =>
  }

  /** In every run of cycles, first invoices, payments and voidings, every row charges what the event it comes from
      gives: the price or its part for the days left, each tax by its own rate, and all of them in the total. */
  lemma {:induction false} EveryRowIsCharged(events: seq<Event>, i: nat)
    requires ModernCycles(events) && i < |Run(events)|
    ensures exists k :: 0 <= k < |events| && ComesFrom(Run(events)[i], events[k])
  {
    hide Step, ComesFrom, Modern;
    if events != [] {
      var front, e := events[..|events| - 1], events[|events| - 1];
      StepCharges(Run(front), e, i);
      if i < |Run(front)| {
        EveryRowIsCharged(front, i);
        var k :| 0 <= k < |front| && ComesFrom(Run(front)[i], front[k]);
        SameSource(Run(front)[i], Run(events)[i], front[k]);
        assert ComesFrom(Run(events)[i], events[k]);
      } else {
        assert ComesFrom(Run(events)[i], events[|events| - 1]);
      }
    }
  }

  // --- What a cycle counts -------------------------------------------------------------------

  /** The day of the contract in this month, or the last one of a shorter month. */
  predicate IsDay(c: Contract, today: Date)
    requires Modern(today)
  {
    today.day == Min(c.billingDay, MonthLength(today.year, today.month))
  }

  predicate OfPeriod(inv: Invoice, c: Contract, today: Date) {
    inv.contractId == c.id && inv.periodStart == Date(today.year, today.month, 1)
  }

  /** The first row of the contract and period counts as an invoice: it is not voided. */
  ghost predicate FirstCounts(invoices: seq<Invoice>, c: Contract, today: Date) {
    exists i :: 0 <= i < |invoices| && OfPeriod(invoices[i], c, today) && invoices[i].status != VOIDED
      && forall k :: 0 <= k < i ==> !OfPeriod(invoices[k], c, today)
  }

  lemma {:induction false} FirstMatchCounts(invoices: seq<Invoice>, c: Contract, today: Date)
    ensures var first := FirstMatch(invoices, c.id, PeriodStart(today));
      first.Some? && first.value.status != VOIDED <==> FirstCounts(invoices, c, today)
  {
    if invoices != [] {
      FirstMatchCounts(invoices[1..], c, today);
      if OfPeriod(invoices[0], c, today) {
        assert invoices[0].status != VOIDED ==> FirstCounts(invoices, c, today);
      } else {
        if FirstCounts(invoices[1..], c, today) {
          var i :| 0 <= i < |invoices[1..]| && OfPeriod(invoices[1..][i], c, today) && invoices[1..][i].status != VOIDED
            && forall k :: 0 <= k < i ==> !OfPeriod(invoices[1..][k], c, today);
          assert forall k :: 1 <= k < i + 1 ==> invoices[k] == invoices[1..][k - 1];
          assert OfPeriod(invoices[i + 1], c, today);
        }
        if FirstCounts(invoices, c, today) {
          var i :| 0 <= i < |invoices| && OfPeriod(invoices[i], c, today) && invoices[i].status != VOIDED
            && forall k :: 0 <= k < i ==> !OfPeriod(invoices[k], c, today);
          assert invoices[1..][i - 1] == invoices[i];
          assert forall k :: 0 <= k < i - 1 ==> invoices[1..][k] == invoices[k + 1];
        }
      }
    }
  }

  /** On its day a contract fails if its save throws and the first row of the period does not count, and is invoiced if
      its save does not throw and no row of the period counts; in every other case it is skipped. */
  lemma OutcomeExactly(invoices: seq<Invoice>, c: Contract, today: Date, fails: set<nat>)
    requires Modern(today)
    ensures var r := OutcomeOf(invoices, c, today, fails);
      && (r == Failed <==> IsDay(c, today) && c.id in fails && !FirstCounts(invoices, c, today))
      && (r == Generated <==>
            IsDay(c, today) && c.id !in fails
            && forall i :: 0 <= i < |invoices| && OfPeriod(invoices[i], c, today) ==> invoices[i].status == VOIDED)
  {
    hide DaysInMonth, MonthLength, FirstMatch, FirstCounts, IsBillingDay;
    ValidDay(today);
    OneBillingDay(today.year, today.month, c.billingDay, today.day);
    FirstMatchCounts(invoices, c, today);
    FirstMatchBills(invoices, c.id, PeriodStart(today));
    assert Billed(invoices, c.id, PeriodStart(today)) <==>
      exists i :: 0 <= i < |invoices| && OfPeriod(invoices[i], c, today) && invoices[i].status != VOIDED by {
      if i :| 0 <= i < |invoices| && OfPeriod(invoices[i], c, today) && invoices[i].status != VOIDED {
        assert Blocks(invoices[i], c.id, PeriodStart(today));
      }
    }
  }

  /** How many contracts have a property. */
  ghost function CountOf(contracts: seq<Contract>, p: Contract -> bool): nat {
    if contracts == [] then 0
    else CountOf(contracts[..|contracts| - 1], p) + if p(contracts[|contracts| - 1]) then 1 else 0
  }

  lemma FailedContractUnchanged(invoices: seq<Invoice>, contracts: seq<Contract>, today: Date, fails: set<nat>,
                                c: Contract)
    requires Modern(today) && c.id in fails
    ensures FirstCounts(CycledOver(invoices, contracts, today, fails), c, today) <==> FirstCounts(invoices, c, today)
  {
    hide CycledOver, Modern, RecurringOf;
    CycleCharges(invoices, contracts, today, fails);
    var after := CycledOver(invoices, contracts, today, fails);
    assert forall i :: 0 <= i < |invoices| ==> after[i] == invoices[i];
    if FirstCounts(invoices, c, today) {
      var i :| 0 <= i < |invoices| && OfPeriod(invoices[i], c, today) && invoices[i].status != VOIDED
        && forall k :: 0 <= k < i ==> !OfPeriod(invoices[k], c, today);
      assert OfPeriod(after[i], c, today);
    }
    if FirstCounts(after, c, today) {
      var i :| 0 <= i < |after| && OfPeriod(after[i], c, today) && after[i].status != VOIDED
        && forall k :: 0 <= k < i ==> !OfPeriod(after[k], c, today);
      assert i < |invoices|;
      assert forall k :: 0 <= k < i ==> !OfPeriod(invoices[k], c, today);
    }
  }

  /** The failures counted are the active contracts whose day it is, whose save throws, and for whom the first row of
      the period does not count; and all active contracts, these and no other, are counted once in one of the three. */
  lemma {:induction false} CountersExactly(invoices: seq<Invoice>, contracts: seq<Contract>, today: Date,
                                           fails: set<nat>)
    requires Modern(today)
    ensures Failures(invoices, contracts, today, fails)
      == CountOf(contracts, (c: Contract) =>
           c.active && IsDay(c, today) && c.id in fails && !FirstCounts(invoices, c, today))
    ensures |ActiveOnly(contracts)| == CountOf(contracts, (c: Contract) => c.active)
  {
    hide OutcomeOf, FirstCounts, IsDay, CycledOver, Modern;
    if contracts != [] {
      var front, last := contracts[..|contracts| - 1], contracts[|contracts| - 1];
      CountersExactly(invoices, front, today, fails);
      OutcomeExactly(CycledOver(invoices, front, today, fails), last, today, fails);
      if last.id in fails { FailedContractUnchanged(invoices, front, today, fails, last); }
    }
  }
}

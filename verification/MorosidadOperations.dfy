/** What each operation on one contract answers and leaves, status by status, and what the operator's list holds,
    said without the functions that compute it. */
module MorosidadOperations {
  import opened Wrappers
  import opened BillingDate
  import opened SuspensionHistory
  import opened Morosidad
  import opened MorosidadTurn
  import opened MorosidadLaws

  function StatusAt(office: Office, c: nat): Option<ContractStatus> {
    if c in office.contracts then Some(office.contracts[c].status) else None
  }

  /** The contract has the status and its own grace, the episodes are these, and nothing else changed. */
  ghost predicate Became(office: Office, after: Office, c: nat, status: ContractStatus, episodes: seq<Episode>) {
    c in office.contracts
    && after == Office(office.contracts[c := Contract(status, office.contracts[c].graceDaysOverride)], office.invoices,
                       episodes, office.reminders)
  }

  /** One more episode of the contract is open, at the end. */
  ghost predicate OneOpened(before: seq<Episode>, after: seq<Episode>, c: nat) {
    after == before + [Episode(c, false)]
  }

  /** The most recent open episode of the contract is closed, if there is one, and no other changed. */
  ghost predicate LastClosed(before: seq<Episode>, after: seq<Episode>, c: nat) {
    |after| == |before|
    && forall i: nat :: i < |before| ==>
         after[i] == if IsLastOpen(before, c, i) then Episode(c, true) else before[i]
  }

  lemma ClosedIsLastClosed(episodes: seq<Episode>, c: nat)
    ensures LastClosed(episodes, Closed(episodes, c), c)
  {
    hide Closed, IsLastOpen;
    if |episodes| > 0 {
      forall i: nat | i < |episodes|
        ensures |Closed(episodes, c)| == |episodes|
        ensures Closed(episodes, c)[i] == if IsLastOpen(episodes, c, i) then Episode(c, true) else episodes[i]
      {
        ClosedExactly(episodes, c, i);
      }
      ClosedExactly(episodes, c, 0);
    } else {
      ClosedCount(episodes, c, c);
    }
  }

  /** A manual suspension: only of an active contract, and only when the network allows it; the contract is suspended
      also when its episode cannot be saved, which is then the answer. */
  lemma ManuallySuspendedExactly(office: Office, c: nat, networkOk: bool, recorded: bool)
    ensures var (after, r) := ManuallySuspended(office, c, networkOk, recorded);
      match StatusAt(office, c)
      case None => r == Err(NotFound) && after == office
      case Some(ACTIVE) =>
        if !networkOk then r == Err(NetworkRefused) && after == office
        else
          && Became(office, after, c, SUSPENDED, after.episodes)
          && if recorded then r == Ok(()) && OneOpened(office.episodes, after.episodes, c)
             else r == Err(EpisodeNotSaved) && after.episodes == office.episodes
      case Some(_) => r == Err(WrongStatus) && after == office
  {}

  /** A manual reactivation: the same of a suspended contract, whose episode is closed. */
  lemma ManuallyReactivatedExactly(office: Office, c: nat, networkOk: bool, recorded: bool)
    ensures var (after, r) := ManuallyReactivated(office, c, networkOk, recorded);
      match StatusAt(office, c)
      case None => r == Err(NotFound) && after == office
      case Some(SUSPENDED) =>
        if !networkOk then r == Err(NetworkRefused) && after == office
        else
          && Became(office, after, c, ACTIVE, after.episodes)
          && if recorded then r == Ok(()) && LastClosed(office.episodes, after.episodes, c)
             else r == Err(EpisodeNotSaved) && after.episodes == office.episodes
      case Some(_) => r == Err(WrongStatus) && after == office
  {
    hide Closed, LastClosed;
    ClosedIsLastClosed(office.episodes, c);
  }

  /** A payment restores exactly a suspended contract without an overdue open invoice, whatever the network says. */
  lemma ReactivatedIfSettledExactly(office: Office, c: nat, today: ValidDate, recorded: bool)
    ensures var (after, r) := ReactivatedIfSettled(office, c, today, recorded);
      if StatusAt(office, c) == Some(SUSPENDED)
         && forall i :: 0 <= i < |office.invoices| && office.invoices[i].contractId == Some(c) ==>
              !IsOverdue(office.invoices[i], today)
      then
        && Became(office, after, c, ACTIVE, after.episodes)
        && if recorded then r == Ok(true) && LastClosed(office.episodes, after.episodes, c)
           else r == Err(EpisodeNotSaved) && after.episodes == office.episodes
      else r == Ok(false) && after == office
  {
    hide Closed, LastClosed, DaysBetween;
    ClosedIsLastClosed(office.episodes, c);
  }

  /** The cut of a contract in the cycle, by what the network answers and whether the episode can be saved. */
  lemma CutExactlyBy(office: Office, c: nat, answer: Answer)
    requires c in office.contracts
    ensures var after := Cut(office, c, answer);
      match answer
      case Applied => Became(office, after, c, SUSPENDED, office.episodes + [Episode(c, false)])
      case Unrecorded => Became(office, after, c, SUSPENDED, office.episodes)
      case _ => after == office
  {}

  /** A termination takes any contract that is not terminated; a sale only a suspended one; a resolved installation
      only one that waits for it; an import any one that is not terminated, or makes a new one. None touches an
      episode. */
  lemma StatusChangesExactly(office: Office, c: nat, status: ContractStatus)
    ensures var (after, r) := Terminated(office, c);
      match StatusAt(office, c)
      case None => r == Err(NotFound) && after == office
      case Some(TERMINATED) => r == Err(WrongStatus) && after == office
      case Some(_) => r == Ok(()) && Became(office, after, c, TERMINATED, office.episodes)
    ensures if StatusAt(office, c) == Some(SUSPENDED)
      then Became(office, SoldAtCounter(office, c), c, ACTIVE, office.episodes) else SoldAtCounter(office, c) == office
    ensures if StatusAt(office, c) == Some(PENDING_INSTALL)
      then Became(office, Installed(office, c), c, ACTIVE, office.episodes) else Installed(office, c) == office
    ensures var after := Imported(office, c, status);
      match StatusAt(office, c)
      case None => after == office.(contracts := office.contracts[c := Contract(status, None)])
      case Some(TERMINATED) => after == office
      case Some(_) => Became(office, after, c, status, office.episodes)
  {}

  /** A new contract is active; a change of its override changes nothing else. */
  lemma OverridesExactly(office: Office, c: nat, override: Option<int>)
    ensures if c in office.contracts
      then
        && WithContract(office, c, override) == office
        && WithOverride(office, c, override)
             == office.(contracts := office.contracts[c := Contract(office.contracts[c].status, override)])
      else
        && WithContract(office, c, override)
             == office.(contracts := office.contracts[c := Contract(ACTIVE, override)])
        && WithOverride(office, c, override) == office
  {}

  // --- The operator's list ------------------------------------------------------------------

  lemma {:induction false} GroupCount(rows: seq<Invoice>, c: nat, today: ValidDate)
    ensures |Group(rows, c, today)|
      == CountRows(rows, (inv: Invoice) => inv.contractId == Some(c) && IsOverdue(inv, today))
    ensures Group(rows, c, today) != [] <==> HasOverdue(rows, c, today)
  {
    hide DaysBetween;
    if rows != [] {
      GroupCount(rows[..|rows| - 1], c, today);
      HasOverdueLast(rows, c, today);
    }
  }

  lemma HasOverdueLast(rows: seq<Invoice>, c: nat, today: ValidDate)
    requires rows != []
    ensures HasOverdue(rows, c, today)
      <==> HasOverdue(rows[..|rows| - 1], c, today) || OverdueFor(rows[|rows| - 1], c, today)
  {
    hide OverdueFor;
    var front := rows[..|rows| - 1];
    if HasOverdue(front, c, today) {
      var i :| 0 <= i < |front| && OverdueFor(front[i], c, today);
      assert rows[i] == front[i];
    }
    if i :| 0 <= i < |rows| && OverdueFor(rows[i], c, today) {
      if i < |front| { assert front[i] == rows[i]; }
    }
  }

  /** The list holds exactly the contracts with an overdue open invoice, whatever their status, each with its status,
      its grace, its longest delay, how many such invoices it has, and the day on which that delay reaches the grace. */
  lemma DelinquentsExactly(rows: seq<Invoice>, contracts: Contracts, settings: Settings, today: ValidDate, c: nat)
    ensures var items := Delinquents(rows, contracts, settings, today);
      && (c in items <==>
            c in contracts
            && exists i :: 0 <= i < |rows| && rows[i].contractId == Some(c) && IsOverdue(rows[i], today))
      && (c in items ==>
            && items[c].contractStatus == contracts[c].status
            && items[c].effectiveGraceDays ==
                 (match contracts[c].graceDaysOverride case Some(days) => days case None => settings.graceDays)
            && items[c].daysOverdue == MaxDelay(rows, c, today)
            && items[c].overdueInvoicesCount ==
                 CountRows(rows, (inv: Invoice) => inv.contractId == Some(c) && IsOverdue(inv, today))
            && DaysBetween(items[c].scheduledSuspensionDate, today)
                 == items[c].effectiveGraceDays - items[c].daysOverdue)
  {
    hide DaysBetween, Group, Longest, MaxDelay, PlusDays;
    GroupCount(rows, c, today);
    assert HasOverdue(rows, c, today) <==>
      exists i :: 0 <= i < |rows| && rows[i].contractId == Some(c) && IsOverdue(rows[i], today) by {
      if i :| 0 <= i < |rows| && rows[i].contractId == Some(c) && IsOverdue(rows[i], today) {
        assert OverdueFor(rows[i], c, today);
      }
      if i :| 0 <= i < |rows| && OverdueFor(rows[i], c, today) { assert IsOverdue(rows[i], today); }
    }
    GroupDelay(rows, c, today);
    if c in contracts {
      var (days, earliest) := Longest(Group(rows, c, today), today);
      PlusDaysShifts(earliest, Grace(Some(c), contracts, settings), today);
    }
  }
}

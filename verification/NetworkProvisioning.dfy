/** Models src/modules/network/network-provisioning.service.ts: the network access
    of a contract, its status, and the audit log. The router and the lookups of
    contracts, nodes and plans answer from outside. */
module NetworkProvisioning {
  import opened Wrappers

  datatype Status = PENDING | ACTIVE | SUSPENDED | CUT

  /** The empty username stands for none. */
  datatype Access = Access(
    status: Status, username: string, nodeId: Option<nat>, onuId: Option<nat>, macAddress: Option<string>,
    ipAddress: Option<string>, lastSyncError: bool)

  datatype Action = CREATE | PROVISION | SUSPEND | RESTORE | DEPROVISION | SYNC_PROFILE | REVEAL_PASSWORD

  datatype Entry = Entry(contractId: nat, action: Action, ok: bool)

  datatype Net = Net(accesses: map<nat, Access>, audit: seq<Entry>)

  datatype Error = NotFound | UsernameInUse

  /** The fields a configuration request may carry. */
  datatype Request = Request(
    username: Option<string>, nodeId: Option<nat>, onuId: Option<nat>, macAddress: Option<string>,
    ipAddress: Option<string>, newPassword: bool)

  /** The answers an upsert depends on: the contract's owner, the node, the router, the plan. */
  datatype Answers = Answers(owned: bool, nodeExists: bool, provisionOk: bool, planSpeed: nat, syncOk: bool)

  // --- The operations -----------------------------------------------------------------

  function Logged(net: Net, c: nat, action: Action, ok: bool): Net { net.(audit := net.audit + [Entry(c, action, ok)]) }

  function Created(net: Net, c: nat): (after: Net)
    ensures c in after.accesses
  {
    if c in net.accesses then net
    else Logged(net.(accesses := net.accesses[c := Access(PENDING, "", None, None, None, None, false)]), c, CREATE,
                true)
  }

  function Transitioned(net: Net, c: nat, action: Action, next: Status, ok: bool): (after: Net)
    requires c in net.accesses
    ensures after.accesses.Keys == net.accesses.Keys
  {
    var access := net.accesses[c].(lastSyncError := !ok);
    Logged(net.(accesses := net.accesses[c := if ok then access.(status := next) else access]), c, action, ok)
  }

  function Suspended(net: Net, c: nat, ok: bool): Net {
    if c !in net.accesses || net.accesses[c].status == SUSPENDED || net.accesses[c].status == CUT then net
    else Transitioned(net, c, SUSPEND, SUSPENDED, ok)
  }

  function Restored(net: Net, c: nat, ok: bool): Net {
    if c !in net.accesses || net.accesses[c].status == ACTIVE || net.accesses[c].status == CUT then net
    else Transitioned(net, c, RESTORE, ACTIVE, ok)
  }

  function Deprovisioned(net: Net, c: nat, ok: bool): Net {
    if c !in net.accesses || net.accesses[c].status == CUT then net
    else Transitioned(net, c, DEPROVISION, CUT, ok)
  }

  function Synced(net: Net, c: nat, planSpeed: nat, ok: bool): (after: Net)
    ensures after.accesses.Keys == net.accesses.Keys
  {
    if planSpeed == 0 || c !in net.accesses then net
    else if net.accesses[c].nodeId.None? && net.accesses[c].onuId.None? then net
    else Logged(net.(accesses := net.accesses[c := net.accesses[c].(lastSyncError := !ok)]), c, SYNC_PROFILE, ok)
  }

  predicate NameTaken(net: Net, c: nat, username: string) {
    exists d :: d in net.accesses && d != c && net.accesses[d].username == username && net.accesses[d].status != CUT
  }

  predicate Conflicts(net: Net, c: nat, q: Request)
    requires c in net.accesses
  {
    q.username.Some? && q.username.value != "" && q.username.value != net.accesses[c].username
    && NameTaken(net, c, q.username.value)
  }

  function Configured(a: Access, q: Request): Access {
    a.(username := if q.username.Some? then q.username.value else a.username,
       nodeId := if q.nodeId.Some? then q.nodeId else a.nodeId,
       onuId := if q.onuId.Some? then q.onuId else a.onuId,
       macAddress := if q.macAddress.Some? then q.macAddress else a.macAddress,
       ipAddress := if q.ipAddress.Some? then q.ipAddress else a.ipAddress)
  }

  /** Neither missing nor empty. */
  predicate Filled(field: Option<string>) { field.Some? && field.value != "" }

  predicate ReadyToProvision(a: Access) {
    (a.nodeId.Some? && a.username != "") || a.onuId.Some?
      || (a.nodeId.Some? && Filled(a.macAddress) && Filled(a.ipAddress))
  }

  /** A refused upsert may still have created the access. */
  function Upserted(net: Net, c: nat, q: Request, env: Answers): (Net, Result<Access, Error>) {
    if !env.owned || (q.nodeId.Some? && !env.nodeExists) then (net, Err(NotFound))
    else
      var opened_ := Created(net, c);
      if Conflicts(opened_, c, q) then (opened_, Err(UsernameInUse))
      else
        var before := opened_.accesses[c];
        var saved := opened_.(accesses := opened_.accesses[c := Configured(before, q)]);
        var access := saved.accesses[c];
        var provisioned :=
          if before.status == PENDING && ReadyToProvision(access)
          then Transitioned(saved, c, PROVISION, ACTIVE, env.provisionOk)
          else if before.status != PENDING && q.newPassword && access.nodeId.Some? && access.username != ""
          then Transitioned(saved, c, PROVISION, access.status, env.provisionOk)
          else saved;
        var final := Synced(provisioned, c, env.planSpeed, env.syncOk);
        (final, Ok(final.accesses[c]))
  }

  // --- The service -----------------------------------------------------------------------

  class NetworkProvisioningService {
    var accesses: map<nat, Access>
    var audit: seq<Entry>

    function State(): Net
      reads this
    {
      Net(accesses, audit)
    }

    constructor ()
      ensures State() == Net(map[], [])
    {
      accesses, audit := map[], [];
    }

    method RecordAudit(c: nat, action: Action, ok: bool)
      modifies this`audit
      ensures State() == Logged(old(State()), c, action, ok)
    {
      audit := audit + [Entry(c, action, ok)];
    }

    method CreateAccessForContract(c: nat)
      modifies this
      ensures State() == Created(old(State()), c)
    {
      if c in accesses { return; }
      accesses := accesses[c := Access(PENDING, "", None, None, None, None, false)];
      RecordAudit(c, CREATE, true);
    }

    method Transition(c: nat, action: Action, nextStatusOnSuccess: Status, resultOk: bool)
      requires c in accesses
      modifies this
      ensures State() == Transitioned(old(State()), c, action, nextStatusOnSuccess, resultOk)
    {
      var access := accesses[c];
      if resultOk {
        access := access.(status := nextStatusOnSuccess, lastSyncError := false);
      } else {
        access := access.(lastSyncError := true);
      }
      accesses := accesses[c := access];
      RecordAudit(c, action, resultOk);
    }

    method SyncProfileForContract(c: nat, planSpeed: nat, ok: bool)
      modifies this
      ensures State() == Synced(old(State()), c, planSpeed, ok)
    {
      if planSpeed == 0 || c !in accesses { return; }
      var access := accesses[c];
      if access.nodeId.None? && access.onuId.None? { return; }
      accesses := accesses[c := access.(lastSyncError := !ok)];
      RecordAudit(c, SYNC_PROFILE, ok);
    }

    method UpsertConfiguration(c: nat, q: Request, env: Answers) returns (r: Result<Access, Error>)
      modifies this
      ensures (State(), r) == Upserted(old(State()), c, q, env)
    {
      hide Created, Transitioned, Synced, NameTaken, ReadyToProvision;
      if !env.owned { return Err(NotFound); }
      if q.nodeId.Some? && !env.nodeExists { return Err(NotFound); }
      CreateAccessForContract(c);
      var access := accesses[c];
      if q.username.Some? && q.username.value != "" && q.username.value != access.username {
        if NameTaken(State(), c, q.username.value) { return Err(UsernameInUse); }
      }
      var wasPending := access.status == PENDING;
      access := Configured(access, q);
      accesses := accesses[c := access];
      if wasPending && ReadyToProvision(access) {
        Transition(c, PROVISION, ACTIVE, env.provisionOk);
      } else if !wasPending && q.newPassword && access.nodeId.Some? && access.username != "" {
        Transition(c, PROVISION, access.status, env.provisionOk);
      }
      SyncProfileForContract(c, env.planSpeed, env.syncOk);
      r := Ok(accesses[c]);
    }

    method Suspend(c: nat, ok: bool)
      modifies this
      ensures State() == Suspended(old(State()), c, ok)
    {
      if c !in accesses { return; }
      if accesses[c].status == SUSPENDED || accesses[c].status == CUT { return; }
      Transition(c, SUSPEND, SUSPENDED, ok);
    }

    method Restore(c: nat, ok: bool)
      modifies this
      ensures State() == Restored(old(State()), c, ok)
    {
      if c !in accesses { return; }
      if accesses[c].status == ACTIVE || accesses[c].status == CUT { return; }
      Transition(c, RESTORE, ACTIVE, ok);
    }

    method Deprovision(c: nat, ok: bool)
      modifies this
      ensures State() == Deprovisioned(old(State()), c, ok)
    {
      if c !in accesses { return; }
      if accesses[c].status == CUT { return; }
      Transition(c, DEPROVISION, CUT, ok);
    }
  }

  // --- Runs ----------------------------------------------------------------------------------

  datatype Event =
    | Create(c: nat)
    | Upsert(c: nat, q: Request, env: Answers)
    | Sync(c: nat, planSpeed: nat, ok: bool)
    | Suspend(c: nat, ok: bool)
    | Restore(c: nat, ok: bool)
    | Deprovision(c: nat, ok: bool)
    | RevealPassword(c: nat)

  function Step(net: Net, e: Event): Net {
    match e
    case Create(c) => Created(net, c)
    case Upsert(c, q, env) => Upserted(net, c, q, env).0
    case Sync(c, planSpeed, ok) => Synced(net, c, planSpeed, ok)
    case Suspend(c, ok) => Suspended(net, c, ok)
    case Restore(c, ok) => Restored(net, c, ok)
    case Deprovision(c, ok) => Deprovisioned(net, c, ok)
    case RevealPassword(c) => if c in net.accesses then Logged(net, c, REVEAL_PASSWORD, true) else net
  }

  function Run(net: Net, events: seq<Event>): Net {
    if events == [] then net else Step(Run(net, events[..|events| - 1]), events[|events| - 1])
  }

  // --- The audit log tells the status -----------------------------------------------------------

  /** The status one successful action leads to. */
  function After(status: Option<Status>, action: Action): Option<Status> {
    match action
    case CREATE => Some(PENDING)
    case PROVISION => if status == Some(PENDING) then Some(ACTIVE) else status
    case SUSPEND => Some(SUSPENDED)
    case RESTORE => Some(ACTIVE)
    case DEPROVISION => Some(CUT)
    case _ => status
  }

  /** The status of a contract's access, replayed from the successful entries of the log alone. */
  function Replay(audit: seq<Entry>, c: nat): Option<Status> {
    if audit == [] then None
    else
      var last := audit[|audit| - 1];
      var before := Replay(audit[..|audit| - 1], c);
      if last.contractId == c && last.ok then After(before, last.action) else before
  }

  ghost predicate LogTellsStatus(net: Net) {
    forall c: nat :: Replay(net.audit, c) == if c in net.accesses then Some(net.accesses[c].status) else None
  }

  /** Accesses that are not cut do not share a username. */
  ghost predicate NamesDistinct(net: Net) {
    forall c, d ::
      (c in net.accesses && d in net.accesses && c != d && net.accesses[c].username != ""
       && net.accesses[c].status != CUT && net.accesses[d].status != CUT) ==>
      net.accesses[c].username != net.accesses[d].username
  }

  ghost predicate Inv(net: Net) { LogTellsStatus(net) && NamesDistinct(net) }

  lemma ReplayLogged(net: Net, c: nat, action: Action, ok: bool, d: nat)
    ensures Replay(Logged(net, c, action, ok).audit, d) ==
      if c == d && ok then After(Replay(net.audit, d), action) else Replay(net.audit, d)
  {
    assert Logged(net, c, action, ok).audit[..|net.audit|] == net.audit;
  }

  /** Saving an access under its old status and logging an action whose replay agrees keeps the log telling. */
  lemma LoggedKeeps(net: Net, c: nat, access: Access, action: Action, ok: bool)
    requires LogTellsStatus(net) && c in net.accesses
    requires Some(access.status) ==
      if ok then After(Some(net.accesses[c].status), action) else Some(net.accesses[c].status)
    ensures LogTellsStatus(Logged(net.(accesses := net.accesses[c := access]), c, action, ok))
  {
    var saved := net.(accesses := net.accesses[c := access]);
    forall d: nat
      ensures Replay(Logged(saved, c, action, ok).audit, d)
        == if d in saved.accesses then Some(saved.accesses[d].status) else None
    {
      ReplayLogged(saved, c, action, ok, d);
    }
  }

  lemma CreatedKeeps(net: Net, c: nat)
    requires Inv(net)
    ensures Inv(Created(net, c)) && c in Created(net, c).accesses
  {
    forall d: nat ensures var after := Created(net, c);
      Replay(after.audit, d) == if d in after.accesses then Some(after.accesses[d].status) else None
    {
      ReplayLogged(net, c, CREATE, true, d);
    }
  }

  lemma TransitionKeeps(net: Net, c: nat, action: Action, next: Status, ok: bool)
    requires Inv(net) && c in net.accesses
    requires ok ==> After(Some(net.accesses[c].status), action) == Some(next)
    requires net.accesses[c].status == CUT ==> next == CUT
    ensures Inv(Transitioned(net, c, action, next, ok)) && c in Transitioned(net, c, action, next, ok).accesses
  {
    hide Replay;
    LoggedKeeps(net, c, Transitioned(net, c, action, next, ok).accesses[c], action, ok);
  }

  lemma SyncKeeps(net: Net, c: nat, planSpeed: nat, ok: bool)
    requires Inv(net)
    ensures Inv(Synced(net, c, planSpeed, ok))
  {
    hide Replay;
    if planSpeed != 0 && c in net.accesses {
      LoggedKeeps(net, c, net.accesses[c].(lastSyncError := !ok), SYNC_PROFILE, ok);
    }
  }

  lemma ConfiguredKeeps(net: Net, c: nat, q: Request)
    requires Inv(net) && c in net.accesses && !Conflicts(net, c, q)
    ensures Inv(net.(accesses := net.accesses[c := Configured(net.accesses[c], q)]))
  {
    hide Replay;
    var after := net.(accesses := net.accesses[c := Configured(net.accesses[c], q)]);
    forall d: nat ensures
      Replay(after.audit, d) == if d in after.accesses then Some(after.accesses[d].status) else None
    {
      assert Replay(net.audit, d) == if d in net.accesses then Some(net.accesses[d].status) else None;
    }
  }

  lemma UpsertKeeps(net: Net, c: nat, q: Request, env: Answers)
    requires Inv(net)
    ensures Inv(Upserted(net, c, q, env).0)
  {
    hide Inv, Created, Transitioned, Synced, Conflicts;
    CreatedKeeps(net, c);
    var opened_ := Created(net, c);
    if !Conflicts(opened_, c, q) {
      ConfiguredKeeps(opened_, c, q);
      var saved := opened_.(accesses := opened_.accesses[c := Configured(opened_.accesses[c], q)]);
      var status := opened_.accesses[c].status;
      TransitionKeeps(saved, c, PROVISION, if status == PENDING then ACTIVE else status, env.provisionOk);
      SyncKeeps(Transitioned(saved, c, PROVISION, if status == PENDING then ACTIVE else status, env.provisionOk), c,
                env.planSpeed, env.syncOk);
      SyncKeeps(saved, c, env.planSpeed, env.syncOk);
    }
  }

  lemma InvStep(net: Net, e: Event)
    requires Inv(net)
    ensures Inv(Step(net, e))
  {
    hide Inv, Upserted, Created, Transitioned, Synced;
    match e
    case Create(c) => CreatedKeeps(net, c);
    case Upsert(c, q, env) => UpsertKeeps(net, c, q, env);
    case Sync(c, planSpeed, ok) => SyncKeeps(net, c, planSpeed, ok);
    case Suspend(c, ok) =>
      if c in net.accesses && net.accesses[c].status != CUT {
        TransitionKeeps(net, c, SUSPEND, SUSPENDED, ok);
      }
    case Restore(c, ok) =>
      if c in net.accesses && net.accesses[c].status != CUT {
        TransitionKeeps(net, c, RESTORE, ACTIVE, ok);
      }
    case Deprovision(c, ok) => if c in net.accesses { TransitionKeeps(net, c, DEPROVISION, CUT, ok); }
    case RevealPassword(c) => if c in net.accesses { RevealKeeps(net, c); }
  }

  lemma RevealKeeps(net: Net, c: nat)
    requires Inv(net) && c in net.accesses
    ensures Inv(Logged(net, c, REVEAL_PASSWORD, true))
  {
    LoggedKeeps(net, c, net.accesses[c], REVEAL_PASSWORD, true);
    assert net.accesses[c := net.accesses[c]] == net.accesses;
  }

  /** In every run, whatever the router answers, the log replays to the status of every access
      and no two accesses that are not cut share a username. */
  lemma {:induction false} EveryRunKeepsLog(events: seq<Event>)
    ensures Inv(Run(Net(map[], []), events))
  {
    if events != [] {
      EveryRunKeepsLog(events[..|events| - 1]);
      InvStep(Run(Net(map[], []), events[..|events| - 1]), events[|events| - 1]);
    }
  }

  ghost predicate IsCut(net: Net, c: nat) { c in net.accesses && net.accesses[c].status == CUT }

  /** A cut access stays cut. */
  lemma {:induction false} CutForever(net: Net, events: seq<Event>, c: nat)
    requires IsCut(net, c)
    ensures IsCut(Run(net, events), c)
  {
    if events != [] {
      CutForever(net, events[..|events| - 1], c);
      CutStep(Run(net, events[..|events| - 1]), events[|events| - 1], c);
    }
  }

  lemma CutStep(net: Net, e: Event, c: nat)
    requires IsCut(net, c)
    ensures IsCut(Step(net, e), c)
  {}

  /** The log only grows, and an access is never removed. */
  lemma {:induction false} LogOnlyGrows(net: Net, events: seq<Event>)
    ensures net.audit <= Run(net, events).audit && net.accesses.Keys <= Run(net, events).accesses.Keys
  {
    if events != [] {
      LogOnlyGrows(net, events[..|events| - 1]);
      LogStep(Run(net, events[..|events| - 1]), events[|events| - 1]);
    }
  }

  lemma LogStep(net: Net, e: Event)
    ensures net.audit <= Step(net, e).audit && net.accesses.Keys <= Step(net, e).accesses.Keys
  {}

  /** A username is refused exactly while another access that is not cut holds it, so the name
      of a cut access is free again; an accepted request takes effect and never revives a cut access. */
  lemma RefusedExactly(net: Net, c: nat, q: Request, env: Answers)
    requires env.owned && (q.nodeId.Some? ==> env.nodeExists)
    ensures Upserted(net, c, q, env).1 == Err(UsernameInUse) <==>
      && q.username.Some? && q.username.value != ""
      && !(c in net.accesses && net.accesses[c].username == q.username.value)
      && exists d :: d in net.accesses && d != c && net.accesses[d].username == q.username.value
           && net.accesses[d].status in {PENDING, ACTIVE, SUSPENDED}
  {
    hide Synced, Transitioned, Configured;
    if q.username.Some? { CreatedHoldsNoName(net, c, q.username.value); }
  }

  lemma CreatedHoldsNoName(net: Net, c: nat, username: string)
    ensures NameTaken(Created(net, c), c, username) <==> NameTaken(net, c, username)
  {
    if NameTaken(net, c, username) {
      var d :| d in net.accesses && d != c && net.accesses[d].username == username && net.accesses[d].status != CUT;
      assert d in Created(net, c).accesses && Created(net, c).accesses[d] == net.accesses[d];
    }
  }

  function Given<T>(request: Option<T>, before: Option<T>): Option<T> { if request.Some? then request else before }

  /** Every operation touches the access of its own contract only. */
  lemma StepTouchesOne(net: Net, e: Event, d: nat)
    requires d in net.accesses && d != e.c
    ensures d in Step(net, e).accesses && Step(net, e).accesses[d] == net.accesses[d]
  {}

  /** A sync leaves all of an access but its error mark as it was. */
  lemma SyncedKeepsFields(net: Net, c: nat, planSpeed: nat, ok: bool)
    requires c in net.accesses
    ensures var after := Synced(net, c, planSpeed, ok).accesses;
      c in after && after[c] == net.accesses[c].(lastSyncError := after[c].lastSyncError)
  {}

  /** The access an accepted request ends with: configured, and of the status provisioning gives it. */
  lemma UpsertedAccess(net: Net, c: nat, q: Request, env: Answers)
    requires Upserted(net, c, q, env).1.Ok?
    ensures var (after, r) := Upserted(net, c, q, env);
      var before := Created(net, c).accesses[c];
      && c in after.accesses && r.value == after.accesses[c]
      && r.value == Configured(before, q).(status := r.value.status, lastSyncError := r.value.lastSyncError)
      && r.value.status ==
           if before.status == PENDING && ReadyToProvision(Configured(before, q)) && env.provisionOk then ACTIVE
           else before.status
  {
    hide NameTaken, Synced, Configured, ReadyToProvision, Created;
    var before := Created(net, c).accesses[c];
    var saved := Created(net, c).(accesses := Created(net, c).accesses[c := Configured(before, q)]);
    assert Configured(before, q).status == before.status by { ConfiguredStatus(before, q); }
    SyncedKeepsFields(saved, c, env.planSpeed, env.syncOk);
    SyncedKeepsFields(Transitioned(saved, c, PROVISION, ACTIVE, env.provisionOk), c, env.planSpeed, env.syncOk);
    SyncedKeepsFields(Transitioned(saved, c, PROVISION, before.status, env.provisionOk), c, env.planSpeed, env.syncOk);
  }

  lemma ConfiguredStatus(a: Access, q: Request)
    ensures Configured(a, q).status == a.status && Configured(a, q).lastSyncError == a.lastSyncError
  {}

  /** An accepted request puts every field given into effect and leaves the others as they were. */
  lemma FieldsTakeEffect(net: Net, c: nat, q: Request, env: Answers)
    requires c in net.accesses && Upserted(net, c, q, env).1.Ok?
    ensures var (before, after) := (net.accesses[c], Upserted(net, c, q, env).1.value);
      && after.nodeId == Given(q.nodeId, before.nodeId) && after.onuId == Given(q.onuId, before.onuId)
      && after.macAddress == Given(q.macAddress, before.macAddress)
      && after.ipAddress == Given(q.ipAddress, before.ipAddress)
  {
    hide Upserted;
    UpsertedAccess(net, c, q, env);
  }

  lemma AcceptedTakesEffect(net: Net, c: nat, q: Request, env: Answers)
    requires Upserted(net, c, q, env).1.Ok?
    ensures var (after, r) := Upserted(net, c, q, env);
      && c in after.accesses && r.value == after.accesses[c]
      && r.value.username ==
           (if q.username.Some? then q.username.value else if c in net.accesses then net.accesses[c].username else "")
      && r.value.status == if c in net.accesses && net.accesses[c].status != PENDING then net.accesses[c].status
                           else if env.provisionOk && CanBeProvisioned(r.value) then ACTIVE else PENDING
  {
    hide Upserted;
    UpsertedAccess(net, c, q, env);
    WhenReady(Upserted(net, c, q, env).1.value);
  }

  // --- What each operation does, status by status --------------------------------------------

  /** The access was answered for: on success it has the next status, on failure its own and the error mark, and
      either way the log has one entry more. */
  ghost predicate Answered(net: Net, after: Net, c: nat, action: Action, next: Status, ok: bool) {
    && c in net.accesses && after.accesses.Keys == net.accesses.Keys
    && after.accesses[c] ==
         net.accesses[c].(status := if ok then next else net.accesses[c].status, lastSyncError := !ok)
    && (forall d :: d in net.accesses && d != c ==> after.accesses[d] == net.accesses[d])
    && after.audit == net.audit + [Entry(c, action, ok)]
  }

  function StatusOf(net: Net, c: nat): Option<Status> {
    if c in net.accesses then Some(net.accesses[c].status) else None
  }

  /** Suspending takes PENDING and ACTIVE to SUSPENDED, restoring PENDING and SUSPENDED to ACTIVE, cutting all but CUT
      to CUT; in every other case nothing changes. */
  lemma StatusTables(net: Net, c: nat, ok: bool)
    ensures if StatusOf(net, c) in {Some(PENDING), Some(ACTIVE)}
      then Answered(net, Suspended(net, c, ok), c, SUSPEND, SUSPENDED, ok) else Suspended(net, c, ok) == net
    ensures if StatusOf(net, c) in {Some(PENDING), Some(SUSPENDED)}
      then Answered(net, Restored(net, c, ok), c, RESTORE, ACTIVE, ok) else Restored(net, c, ok) == net
    ensures if StatusOf(net, c) in {Some(PENDING), Some(ACTIVE), Some(SUSPENDED)}
      then Answered(net, Deprovisioned(net, c, ok), c, DEPROVISION, CUT, ok) else Deprovisioned(net, c, ok) == net
  {}

  /** Creating gives a contract without an access a pending one without data and logs it, and changes nothing for a
      contract that has one. */
  lemma CreatedExactly(net: Net, c: nat)
    ensures var after := Created(net, c);
      if c in net.accesses then after == net
      else
        && after.accesses == net.accesses[c := Access(PENDING, "", None, None, None, None, false)]
        && after.audit == net.audit + [Entry(c, CREATE, true)]
  {}

  /** A sync of an access with a node or an ONU under a plan with a speed sets the error mark by the answer and logs
      it; without these nothing changes. */
  lemma SyncedExactly(net: Net, c: nat, planSpeed: nat, ok: bool)
    ensures var after := Synced(net, c, planSpeed, ok);
      if planSpeed > 0 && c in net.accesses && (net.accesses[c].nodeId.Some? || net.accesses[c].onuId.Some?)
      then Answered(net, after, c, SYNC_PROFILE, net.accesses[c].status, ok) else after == net
  {}

  /** With an ONU, or with a node and either a username or both addresses. */
  predicate CanBeProvisioned(a: Access) {
    a.onuId.Some?
    || (a.nodeId.Some?
        && (a.username != "" || (a.macAddress !in {None, Some("")} && a.ipAddress !in {None, Some("")})))
  }

  lemma WhenReady(a: Access)
    ensures ReadyToProvision(a) <==> CanBeProvisioned(a)
  {}

  /** The router is asked to provision a pending access that can be, and any other one on a node with a username when
      a new password is given. */
  predicate AsksRouter(before: Status, a: Access, newPassword: bool) {
    if before == PENDING then CanBeProvisioned(a) else newPassword && a.nodeId.Some? && a.username != ""
  }

  predicate Syncs(a: Access, planSpeed: nat) { planSpeed > 0 && (a.nodeId.Some? || a.onuId.Some?) }

  function Maybe(added: bool, e: Entry): seq<Entry> { if added then [e] else [] }

  /** What follows the save: provisioning, or a new password for the router, and the sync. */
  lemma AfterSaving(saved: Net, c: nat, q: Request, env: Answers)
    requires c in saved.accesses
    ensures var before, access := saved.accesses[c].status, saved.accesses[c];
      var provisioned :=
        if before == PENDING && ReadyToProvision(access)
        then Transitioned(saved, c, PROVISION, ACTIVE, env.provisionOk)
        else if before != PENDING && q.newPassword && access.nodeId.Some? && access.username != ""
        then Transitioned(saved, c, PROVISION, access.status, env.provisionOk)
        else saved;
      var final := Synced(provisioned, c, env.planSpeed, env.syncOk);
      var asks, syncs := AsksRouter(before, access, q.newPassword), Syncs(access, env.planSpeed);
      && final.audit == saved.audit + Maybe(asks, Entry(c, PROVISION, env.provisionOk))
           + Maybe(syncs, Entry(c, SYNC_PROFILE, env.syncOk))
      && final.accesses[c].lastSyncError ==
           (if syncs then !env.syncOk else if asks then !env.provisionOk else access.lastSyncError)
  {
    assert saved.audit + [] == saved.audit;
    assert forall e: Entry :: saved.audit + [e] + [] == saved.audit + [e];
  }

  /** The log entries an accepted request adds, in order, and the error mark of the last call it made. */
  lemma UpsertLogs(net: Net, c: nat, q: Request, env: Answers)
    requires Upserted(net, c, q, env).1.Ok?
    ensures var (after, r) := Upserted(net, c, q, env);
      var before := if c in net.accesses then net.accesses[c].status else PENDING;
      var asks, syncs := AsksRouter(before, r.value, q.newPassword), Syncs(r.value, env.planSpeed);
      && after.audit == net.audit + Maybe(c !in net.accesses, Entry(c, CREATE, true))
           + Maybe(asks, Entry(c, PROVISION, env.provisionOk)) + Maybe(syncs, Entry(c, SYNC_PROFILE, env.syncOk))
      && r.value.lastSyncError ==
           (if syncs then !env.syncOk else if asks then !env.provisionOk
            else c in net.accesses && net.accesses[c].lastSyncError)
  {
    hide NameTaken, Synced, Transitioned, ReadyToProvision, Configured, AsksRouter, Syncs, Maybe;
    var opened_ := Created(net, c);
    var saved := opened_.(accesses := opened_.accesses[c := Configured(opened_.accesses[c], q)]);
    ConfiguredStatus(opened_.accesses[c], q);
    UpsertedAccess(net, c, q, env);
    AfterSaving(saved, c, q, env);
    SameAsking(saved.accesses[c], Upserted(net, c, q, env).1.value);
    CreatedLogs(net, c);
  }

  lemma CreatedLogs(net: Net, c: nat)
    ensures Created(net, c).audit == net.audit + Maybe(c !in net.accesses, Entry(c, CREATE, true))
  {
    assert net.audit + [] == net.audit;
  }

  /** Neither the status nor the error mark decides whether the router is called. */
  lemma SameAsking(a: Access, b: Access)
    requires b == a.(status := b.status, lastSyncError := b.lastSyncError)
    ensures forall before, newPassword :: AsksRouter(before, a, newPassword) == AsksRouter(before, b, newPassword)
    ensures forall planSpeed :: Syncs(a, planSpeed) == Syncs(b, planSpeed)
  {}

  /** A request is refused for a foreign contract or a missing node before anything is done, and for a username in use
      with nothing done but the access created. */
  lemma Refusals(net: Net, c: nat, q: Request, env: Answers)
    ensures var (after, r) := Upserted(net, c, q, env);
      && (r == Err(NotFound) <==> !env.owned || (q.nodeId.Some? && !env.nodeExists))
      && (r == Err(NotFound) ==> after == net)
      && (r == Err(UsernameInUse) ==> after == Created(net, c))
  {
    hide NameTaken, Created, Configured, Transitioned, Synced;
  }
}

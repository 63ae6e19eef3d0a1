/** Models src/modules/network/dhcp-provisioning.adapter.ts over a router, with the look-ups and edits of
    src/modules/network/routeros/routeros-client.ts. Which calls to the router succeed is given by
    `Calls`. */
module DhcpProvisioning {
  import opened Wrappers

  /** A static lease or a simple queue. The key is what it is looked up by: the MAC of a lease, in upper
      case as the look-up compares it, and the name of a queue. */
  datatype Item = Item(id: nat, key: string, detail: string, disabled: bool)

  /** A row of the firewall's address lists. */
  datatype Entry = Entry(list: string, address: string)

  datatype RouterState = RouterState(leases: seq<Item>, queues: seq<Item>, entries: set<Entry>)

  datatype SuspensionMode = DISABLED | DISABLE_SECRET | NOTICE_PORTAL

  /** Missing addresses are empty. */
  datatype Access = Access(contractId: string, macAddress: string, ipAddress: string)

  /** Which calls go through: resolving the node the first and the second time, the look-ups and the edits.
      A failed entry edit is swallowed by the client. */
  datatype Calls = Calls(
    resolve: bool, resolveAgain: bool, findLease: bool, setLease: bool, findQueue: bool, setQueue: bool,
    addEntry: bool, removeEntry: bool)

  const ALL_CALLS := Calls(true, true, true, true, true, true, true, true)

  const SUSPENDED := "sumtech-suspendidos"

  datatype Reply = Reply(state: RouterState, ok: bool)

  function UpperChar(c: char): char { if 'a' <= c <= 'z' then (c as int - 32) as char else c }

  function Upper(s: string): string { if s == "" then "" else [UpperChar(s[0])] + Upper(s[1..]) }

  function LeaseKey(a: Access): string { Upper(a.macAddress) }

  function QueueName(a: Access): string { "sumtech-" + a.contractId }

  function EntryOf(a: Access): Entry { Entry(SUSPENDED, a.ipAddress) }

  // --- The router ------------------------------------------------------------------

  /** Where the first item with a key is, or the length when there is none. */
  function First(items: seq<Item>, key: string): (i: nat)
    ensures i <= |items|
    ensures i < |items| ==> items[i].key == key
    ensures forall k :: 0 <= k < i ==> items[k].key != key
  {
    if items == [] then 0 else if items[0].key == key then 0 else 1 + First(items[1..], key)
  }

  /** The first item with a key, enabled or disabled. */
  function Flip(items: seq<Item>, key: string, disabled: bool): (r: seq<Item>)
    ensures |r| == |items| && forall i :: 0 <= i < |r| ==> r[i] == items[i].(disabled := r[i].disabled)
  {
    var i := First(items, key);
    if i < |items| then items[i := items[i].(disabled := disabled)] else items
  }

  predicate Differs(items: seq<Item>, key: string, disabled: bool) {
    var i := First(items, key);
    i < |items| && items[i].disabled != disabled
  }

  class Router {
    var leases: seq<Item>
    var queues: seq<Item>
    var entries: set<Entry>

    function State(): RouterState
      reads this
    {
      RouterState(leases, queues, entries)
    }

    /** Identifiers are unique, as the router hands them out. */
    ghost predicate Valid()
      reads this
    {
      (forall i, j :: 0 <= i < j < |leases| ==> leases[i].id != leases[j].id)
      && (forall i, j :: 0 <= i < j < |queues| ==> queues[i].id != queues[j].id)
    }

    method Find(items: seq<Item>, key: string) returns (found: Option<Item>)
      ensures found == if First(items, key) < |items| then Some(items[First(items, key)]) else None
    {
      for i := 0 to |items|
        invariant forall k :: 0 <= k < i ==> items[k].key != key
      {
        if items[i].key == key { return Some(items[i]); }
      }
      found := None;
    }

    method SetLeaseDisabled(id: nat, disabled: bool)
      requires Valid()
      modifies this`leases
      ensures Valid()
      ensures |leases| == |old(leases)|
      ensures forall i :: 0 <= i < |leases| ==>
        leases[i] == if old(leases)[i].id == id then old(leases)[i].(disabled := disabled) else old(leases)[i]
    {
      if i :| 0 <= i < |leases| && leases[i].id == id {
        leases := leases[i := leases[i].(disabled := disabled)];
      }
    }

    method SetSimpleQueueDisabled(id: nat, disabled: bool)
      requires Valid()
      modifies this`queues
      ensures Valid()
      ensures |queues| == |old(queues)|
      ensures forall i :: 0 <= i < |queues| ==>
        queues[i] == if old(queues)[i].id == id then old(queues)[i].(disabled := disabled) else old(queues)[i]
    {
      if i :| 0 <= i < |queues| && queues[i].id == id {
        queues := queues[i := queues[i].(disabled := disabled)];
      }
    }
  }

  // --- What the adapter does to a router ---------------------------------------------

  function SetDisabled(s: RouterState, a: Access, disabled: bool, calls: Calls): Reply {
    if !calls.findLease || (Differs(s.leases, LeaseKey(a), disabled) && !calls.setLease) then Reply(s, false)
    else
      var t := s.(leases := Flip(s.leases, LeaseKey(a), disabled));
      if !calls.findQueue || (Differs(s.queues, QueueName(a), disabled) && !calls.setQueue) then Reply(t, false)
      else Reply(t.(queues := Flip(s.queues, QueueName(a), disabled)), true)
  }

  function Listed(s: RouterState, a: Access, calls: Calls): RouterState {
    if calls.addEntry then s.(entries := s.entries + {EntryOf(a)}) else s
  }

  function Unlisted(s: RouterState, a: Access, calls: Calls): RouterState {
    if a.ipAddress != "" && calls.resolveAgain && calls.removeEntry then s.(entries := s.entries - {EntryOf(a)}) else s
  }

  function Suspend(s: RouterState, a: Access, mode: SuspensionMode, calls: Calls): Reply {
    if a.macAddress == "" || !calls.resolve then Reply(s, false)
    else if mode == NOTICE_PORTAL then
      if a.ipAddress == "" then Reply(s, false)
      else
        var r := SetDisabled(s, a, false, calls);
        if r.ok then Reply(Listed(r.state, a, calls), true) else r
    else if !calls.resolveAgain then Reply(s, false)
    else SetDisabled(s, a, true, calls)
  }

  function Restore(s: RouterState, a: Access, calls: Calls): Reply {
    if a.macAddress == "" || !calls.resolve then Reply(s, false)
    else
      var r := SetDisabled(s, a, false, calls);
      if r.ok then Reply(Unlisted(r.state, a, calls), true) else r
  }

  function Deprovision(s: RouterState, a: Access, calls: Calls): Reply {
    if a.macAddress == "" || !calls.resolve then Reply(s, false)
    else
      var r := SetDisabled(s, a, true, calls);
      if r.ok then Reply(Unlisted(r.state, a, calls), true) else r
  }

  class DhcpProvisioningAdapter {
    const client: Router

    constructor (client: Router)
      ensures this.client == client
    {
      this.client := client;
    }

    /** The look-ups and edits `setDisabled` makes; `disabled` is `false` when the portal is used. */
    method SetLeaseAndQueue(a: Access, disabled: bool, calls: Calls) returns (ok: bool)
      requires client.Valid()
      modifies client
      ensures client.Valid()
      ensures Reply(client.State(), ok) == SetDisabled(old(client.State()), a, disabled, calls)
    {
      hide First;
      if !calls.findLease { return false; }
      var lease := client.Find(client.leases, LeaseKey(a));
      if lease.Some? && lease.value.disabled != disabled {
        if !calls.setLease { return false; }
        client.SetLeaseDisabled(lease.value.id, disabled);
      }
      assert client.leases == Flip(old(client.leases), LeaseKey(a), disabled);
      if !calls.findQueue { return false; }
      var queue := client.Find(client.queues, QueueName(a));
      if queue.Some? && queue.value.disabled != disabled {
        if !calls.setQueue { return false; }
        client.SetSimpleQueueDisabled(queue.value.id, disabled);
      }
      assert client.queues == Flip(old(client.queues), QueueName(a), disabled);
      ok := true;
    }

    method SuspendAccess(a: Access, mode: SuspensionMode, calls: Calls) returns (ok: bool)
      requires client.Valid()
      modifies client
      ensures client.Valid()
      ensures Reply(client.State(), ok) == Suspend(old(client.State()), a, mode, calls)
    {
      hide SetDisabled;
      if a.macAddress == "" || !calls.resolve { return false; }
      if mode == NOTICE_PORTAL {
        if a.ipAddress == "" { return false; }
        ok := SetLeaseAndQueue(a, false, calls);
        if ok && calls.addEntry { client.entries := client.entries + {EntryOf(a)}; }
        return;
      }
      if !calls.resolveAgain { return false; }
      ok := SetLeaseAndQueue(a, true, calls);
    }

    method RestoreAccess(a: Access, calls: Calls) returns (ok: bool)
      requires client.Valid()
      modifies client
      ensures client.Valid()
      ensures Reply(client.State(), ok) == Restore(old(client.State()), a, calls)
    {
      hide SetDisabled;
      if a.macAddress == "" || !calls.resolve { return false; }
      ok := SetLeaseAndQueue(a, false, calls);
      if !ok { return; }
      if a.ipAddress != "" {
        if calls.resolveAgain && calls.removeEntry { client.entries := client.entries - {EntryOf(a)}; }
      }
    }

    method DeprovisionAccess(a: Access, calls: Calls) returns (ok: bool)
      requires client.Valid()
      modifies client
      ensures client.Valid()
      ensures Reply(client.State(), ok) == Deprovision(old(client.State()), a, calls)
    {
      hide SetDisabled;
      if a.macAddress == "" || !calls.resolve { return false; }
      ok := SetLeaseAndQueue(a, true, calls);
      if !ok { return; }
      if a.ipAddress != "" {
        if calls.resolveAgain && calls.removeEntry { client.entries := client.entries - {EntryOf(a)}; }
      }
    }
  }

  // --- What an answer means ------------------------------------------------------------

  /** The item the look-up finds, if any, is as asked. */
  predicate Found(items: seq<Item>, key: string, disabled: bool) {
    var i := First(items, key);
    i < |items| ==> items[i].disabled == disabled
  }

  predicate Serving(s: RouterState, a: Access) {
    Found(s.leases, LeaseKey(a), false) && Found(s.queues, QueueName(a), false)
  }

  predicate HardCut(s: RouterState, a: Access) {
    Found(s.leases, LeaseKey(a), true) && Found(s.queues, QueueName(a), true)
  }

  /** Flipping moves no key, so the same item is found again. */
  lemma {:induction false} FlipFinds(items: seq<Item>, flipped: seq<Item>, key: string)
    requires |items| == |flipped| && forall i :: 0 <= i < |items| ==> items[i].key == flipped[i].key
    ensures First(items, key) == First(flipped, key)
  {
    if items != [] { FlipFinds(items[1..], flipped[1..], key); }
  }

  lemma FlipSets(items: seq<Item>, key: string, disabled: bool)
    ensures Found(Flip(items, key, disabled), key, disabled)
  {
    FlipFinds(items, Flip(items, key, disabled), key);
  }

  lemma SetDisabledSets(s: RouterState, a: Access, disabled: bool, calls: Calls)
    requires SetDisabled(s, a, disabled, calls).ok
    ensures var t := SetDisabled(s, a, disabled, calls).state;
      Found(t.leases, LeaseKey(a), disabled) && Found(t.queues, QueueName(a), disabled) && t.entries == s.entries
  {
    hide Found;
    FlipSets(s.leases, LeaseKey(a), disabled);
    FlipSets(s.queues, QueueName(a), disabled);
  }

  /** A suspension that answers ok has cut the client off; or, with the portal, has kept it served, and the
      address is listed unless adding it failed without notice. */
  lemma SuspendedMeans(s: RouterState, a: Access, mode: SuspensionMode, calls: Calls)
    requires Suspend(s, a, mode, calls).ok
    ensures var t := Suspend(s, a, mode, calls).state;
      if mode == NOTICE_PORTAL then
        Serving(t, a) && (EntryOf(a) in t.entries <==> EntryOf(a) in s.entries || calls.addEntry)
      else
        HardCut(t, a) && t.entries == s.entries
  {
    hide SetDisabled, Found;
    SetDisabledSets(s, a, mode != NOTICE_PORTAL, calls);
  }

  /** A restoration that answers ok serves the client again, whatever came before; the address stays
      listed exactly if it was and removing it was not reached or failed without notice. */
  lemma RestoredMeans(s: RouterState, a: Access, calls: Calls)
    requires Restore(s, a, calls).ok
    ensures var t := Restore(s, a, calls).state;
      Serving(t, a)
      && (EntryOf(a) in t.entries <==>
            EntryOf(a) in s.entries && (a.ipAddress == "" || !calls.resolveAgain || !calls.removeEntry))
  {
    hide SetDisabled, Found;
    SetDisabledSets(s, a, false, calls);
  }

  /** The same of a deprovision, which cuts off in every mode. */
  lemma DeprovisionedMeans(s: RouterState, a: Access, calls: Calls)
    requires Deprovision(s, a, calls).ok
    ensures var t := Deprovision(s, a, calls).state;
      HardCut(t, a)
      && (EntryOf(a) in t.entries <==>
            EntryOf(a) in s.entries && (a.ipAddress == "" || !calls.resolveAgain || !calls.removeEntry))
  {
    hide SetDisabled, Found;
    SetDisabledSets(s, a, true, calls);
  }

  // --- What a lease is looked up by -----------------------------------------------------

  /** The same letter in either case, or the very same character. */
  predicate SameLetter(c: char, d: char) {
    c == d || ('a' <= c <= 'z' && d as int == c as int - 'a' as int + 'A' as int)
    || ('a' <= d <= 'z' && c as int == d as int - 'a' as int + 'A' as int)
  }

  /** Two MACs are looked up alike exactly when they differ in the case of letters alone; the key is in upper case. */
  lemma {:induction false} SameKeyExactly(a: string, b: string)
    ensures Upper(a) == Upper(b)
      <==> |a| == |b| && forall i :: 0 <= i < |a| ==> SameLetter(a[i], b[i])
    ensures |Upper(a)| == |a|
    ensures forall i :: 0 <= i < |a| ==> SameLetter(Upper(a)[i], a[i]) && !('a' <= Upper(a)[i] <= 'z')
  {
    if a != "" {
      SameKeyExactly(a[1..], if b == "" then b else b[1..]);
      if b != "" {
        assert Upper(a) == [UpperChar(a[0])] + Upper(a[1..]) && Upper(b) == [UpperChar(b[0])] + Upper(b[1..]);
        assert Upper(a) == Upper(b) <==> UpperChar(a[0]) == UpperChar(b[0]) && Upper(a[1..]) == Upper(b[1..]) by {
          if Upper(a) == Upper(b) { assert Upper(a)[1..] == Upper(a[1..]) && Upper(b)[1..] == Upper(b[1..]); }
        }
        assert forall i :: 1 <= i < |a| ==> a[i] == a[1..][i - 1];
        assert forall i :: 1 <= i < |b| ==> b[i] == b[1..][i - 1];
      }
    }
  }

  // --- When an answer is ok --------------------------------------------------------------

  /** The item the look-up finds does not need the edit, or the edit goes through. */
  predicate EditGoes(items: seq<Item>, key: string, disabled: bool, set_: bool) { Found(items, key, disabled) || set_ }

  predicate EditsGo(s: RouterState, a: Access, disabled: bool, calls: Calls) {
    && calls.findLease && EditGoes(s.leases, Upper(a.macAddress), disabled, calls.setLease)
    && calls.findQueue && EditGoes(s.queues, "sumtech-" + a.contractId, disabled, calls.setQueue)
  }

  /** An operation answers ok if and only if the access has a MAC, the node can be resolved, and the look-ups and the
      edits they ask for go through. A hard cut resolves the node twice, and the portal needs an address. */
  lemma OkExactly(s: RouterState, a: Access, mode: SuspensionMode, calls: Calls)
    ensures Suspend(s, a, mode, calls).ok <==>
      a.macAddress != "" && calls.resolve
      && if mode == NOTICE_PORTAL then a.ipAddress != "" && EditsGo(s, a, false, calls)
         else calls.resolveAgain && EditsGo(s, a, true, calls)
    ensures Restore(s, a, calls).ok <==> a.macAddress != "" && calls.resolve && EditsGo(s, a, false, calls)
    ensures Deprovision(s, a, calls).ok <==> a.macAddress != "" && calls.resolve && EditsGo(s, a, true, calls)
  {
    hide First, Flip, Upper;
  }

  predicate FirstWith(items: seq<Item>, key: string, i: nat)
    requires i < |items|
  {
    items[i].key == key && forall j :: 0 <= j < i ==> items[j].key != key
  }

  /** The first item with the key, if there is one, is as asked; no other one changed. */
  ghost predicate FirstSet(items: seq<Item>, after: seq<Item>, key: string, disabled: bool) {
    |after| == |items|
    && forall i: nat :: i < |items| ==>
         after[i] == if FirstWith(items, key, i) then items[i].(disabled := disabled) else items[i]
  }

  lemma FlipFirst(items: seq<Item>, key: string, disabled: bool)
    ensures FirstSet(items, Flip(items, key, disabled), key, disabled)
  {
    hide First;
    var i := First(items, key);
    forall k: nat | k < |items| ensures FirstWith(items, key, k) <==> k == i {
      if k > i { assert items[i].key == key; }
    }
  }

  /** The first lease of the MAC and the first queue of the contract are as asked, and the list is the given one. */
  ghost predicate LeftAs(s: RouterState, t: RouterState, a: Access, cut: bool, entries: set<Entry>) {
    && FirstSet(s.leases, t.leases, Upper(a.macAddress), cut)
    && FirstSet(s.queues, t.queues, "sumtech-" + a.contractId, cut)
    && t.entries == entries
  }

  /** What an operation leaves when it answers ok, down to every item and entry; one that never reaches the router
      changes nothing. */
  lemma StateExactly(s: RouterState, a: Access, mode: SuspensionMode, calls: Calls)
    ensures var r := Suspend(s, a, mode, calls);
      var listed := s.entries + {Entry("sumtech-suspendidos", a.ipAddress)};
      r.ok ==> LeftAs(s, r.state, a, mode != NOTICE_PORTAL,
                      if mode == NOTICE_PORTAL && calls.addEntry then listed else s.entries)
    ensures var unlisted := s.entries - {Entry("sumtech-suspendidos", a.ipAddress)};
      var entries := if a.ipAddress != "" && calls.resolveAgain && calls.removeEntry then unlisted else s.entries;
      && (Restore(s, a, calls).ok ==> LeftAs(s, Restore(s, a, calls).state, a, false, entries))
      && (Deprovision(s, a, calls).ok ==> LeftAs(s, Deprovision(s, a, calls).state, a, true, entries))
    ensures a.macAddress == "" || !calls.resolve ==>
      Suspend(s, a, mode, calls).state == Restore(s, a, calls).state == Deprovision(s, a, calls).state == s
  {
    hide First, Flip, Differs, Upper, FirstSet;
    FlipFirst(s.leases, LeaseKey(a), true);
    FlipFirst(s.leases, LeaseKey(a), false);
    FlipFirst(s.queues, QueueName(a), true);
    FlipFirst(s.queues, QueueName(a), false);
  }

  /** An operation that fails never touches the list, and leaves every item of other keys as it was. */
  lemma FailureKeeps(s: RouterState, op: Op)
    requires !Step(s, op).ok
    ensures var t := Step(s, op).state;
      && t.entries == s.entries && t.queues == s.queues
      && (t.leases == s.leases
          || FirstSet(s.leases, t.leases, Upper(op.access.macAddress),
                      op.DeprovisionOp? || (op.SuspendOp? && op.mode != NOTICE_PORTAL)))
  {
    hide First, Flip, Differs, Upper, FirstSet;
    FlipFirst(s.leases, LeaseKey(op.access), true);
    FlipFirst(s.leases, LeaseKey(op.access), false);
  }

  // --- Suspend, then restore -----------------------------------------------------------------

  /** Served, and not on the list. */
  predicate Clear(s: RouterState, a: Access) {
    Serving(s, a) && (a.ipAddress != "" ==> EntryOf(a) !in s.entries)
  }

  lemma FlipBack(items: seq<Item>, key: string, disabled: bool)
    ensures Flip(Flip(items, key, disabled), key, false) == items <==> Found(items, key, false)
    ensures Flip(items, key, false) == items <==> Found(items, key, false)
    ensures Flip(Flip(items, key, false), key, false) == Flip(items, key, false)
  {
    FlipFinds(items, Flip(items, key, disabled), key);
    FlipFinds(items, Flip(items, key, false), key);
  }

  /** With every call through, suspending and then restoring always ends served and off the list, and
      gives back the very router there was exactly when the client was so before. The mode may have
      changed in between: restoring does not look at it. */
  lemma RestoreUndoesSuspend(s: RouterState, a: Access, mode: SuspensionMode)
    requires a.macAddress != ""
    ensures var r := Restore(Suspend(s, a, mode, ALL_CALLS).state, a, ALL_CALLS);
      r.ok && Clear(r.state, a) && (r.state == s <==> Clear(s, a))
  {
    hide Found, Flip, Differs;
    var r := Restore(Suspend(s, a, mode, ALL_CALLS).state, a, ALL_CALLS);
    RestoredMeans(Suspend(s, a, mode, ALL_CALLS).state, a, ALL_CALLS);
    FlipBack(s.leases, LeaseKey(a), mode != NOTICE_PORTAL);
    FlipBack(s.queues, QueueName(a), mode != NOTICE_PORTAL);
  }

  predicate AllEnabled(items: seq<Item>, key: string) {
    forall i :: 0 <= i < |items| && items[i].key == key ==> !items[i].disabled
  }

  predicate RestEnabled(items: seq<Item>, key: string) {
    forall i :: First(items, key) < i < |items| && items[i].key == key ==> !items[i].disabled
  }

  lemma FlipEnables(items: seq<Item>, key: string)
    ensures AllEnabled(Flip(items, key, false), key) <==> RestEnabled(items, key)
  {
    var r := Flip(items, key, false);
    if AllEnabled(r, key) {
      forall i | First(items, key) < i < |items| && items[i].key == key ensures !items[i].disabled {
        assert r[i] == items[i];
      }
    }
  }

  /** Restoring enables every lease and queue of the client exactly when all of them past the first were
      enabled: a second lease of the same MAC stays disabled. */
  lemma AllEnabledExactly(s: RouterState, a: Access, calls: Calls)
    requires Restore(s, a, calls).ok
    ensures var t := Restore(s, a, calls).state;
      AllEnabled(t.leases, LeaseKey(a)) && AllEnabled(t.queues, QueueName(a)) <==>
      RestEnabled(s.leases, LeaseKey(a)) && RestEnabled(s.queues, QueueName(a))
  {
    hide AllEnabled, RestEnabled, Flip;
    FlipEnables(s.leases, LeaseKey(a));
    FlipEnables(s.queues, QueueName(a));
  }

  // --- Accesses do not interfere ------------------------------------------------------------------

  datatype Op =
    | SuspendOp(access: Access, mode: SuspensionMode, calls: Calls)
    | RestoreOp(access: Access, calls: Calls)
    | DeprovisionOp(access: Access, calls: Calls)

  function Step(s: RouterState, op: Op): Reply {
    match op
    case SuspendOp(a, mode, calls) => Suspend(s, a, mode, calls)
    case RestoreOp(a, calls) => Restore(s, a, calls)
    case DeprovisionOp(a, calls) => Deprovision(s, a, calls)
  }

  function Run(s: RouterState, ops: seq<Op>): RouterState {
    if ops == [] then s else Step(Run(s, ops[..|ops| - 1]), ops[|ops| - 1]).state
  }

  /** Another MAC, another contract, and another address or none. */
  predicate Unrelated(a: Access, b: Access) {
    LeaseKey(a) != LeaseKey(b) && a.contractId != b.contractId && (a.ipAddress == "" || a.ipAddress != b.ipAddress)
  }

  predicate SameItems(xs: seq<Item>, ys: seq<Item>, key: string) {
    |xs| == |ys| && forall i :: 0 <= i < |xs| ==> xs[i].key == ys[i].key && (xs[i].key == key ==> xs[i] == ys[i])
  }

  /** Two routers an access cannot tell apart. */
  predicate SameFor(s: RouterState, t: RouterState, b: Access) {
    SameItems(s.leases, t.leases, LeaseKey(b)) && SameItems(s.queues, t.queues, QueueName(b))
    && (EntryOf(b) in s.entries <==> EntryOf(b) in t.entries)
  }

  lemma FlipOther(xs: seq<Item>, ys: seq<Item>, key: string, other: string, disabled: bool)
    requires SameItems(xs, ys, key) && other != key
    ensures SameItems(Flip(xs, other, disabled), ys, key)
  {}

  lemma FlipSame(xs: seq<Item>, ys: seq<Item>, key: string, disabled: bool)
    requires SameItems(xs, ys, key)
    ensures SameItems(Flip(xs, key, disabled), Flip(ys, key, disabled), key)
    ensures Differs(xs, key, disabled) == Differs(ys, key, disabled)
  {
    FlipFinds(xs, ys, key);
  }

  lemma StepOfOther(s: RouterState, t: RouterState, op: Op, b: Access)
    requires SameFor(s, t, b) && Unrelated(op.access, b)
    ensures SameFor(Step(s, op).state, t, b)
  {
    hide SameItems, Flip, Differs, Upper;
    var a := op.access;
    assert QueueName(a)[8..] == a.contractId && QueueName(b)[8..] == b.contractId;
    FlipOther(s.leases, t.leases, LeaseKey(b), LeaseKey(a), true);
    FlipOther(s.leases, t.leases, LeaseKey(b), LeaseKey(a), false);
    FlipOther(s.queues, t.queues, QueueName(b), QueueName(a), true);
    FlipOther(s.queues, t.queues, QueueName(b), QueueName(a), false);
  }

  lemma StepOfSame(s: RouterState, t: RouterState, op: Op)
    requires SameFor(s, t, op.access)
    ensures SameFor(Step(s, op).state, Step(t, op).state, op.access) && Step(s, op).ok == Step(t, op).ok
  {
    hide SameItems, Flip, Differs, Upper;
    var a := op.access;
    FlipSame(s.leases, t.leases, LeaseKey(a), true);
    FlipSame(s.leases, t.leases, LeaseKey(a), false);
    FlipSame(s.queues, t.queues, QueueName(a), true);
    FlipSame(s.queues, t.queues, QueueName(a), false);
  }

  function OpsOf(ops: seq<Op>, b: Access): seq<Op> {
    if ops == [] then []
    else
      var last := ops[|ops| - 1];
      OpsOf(ops[..|ops| - 1], b) + if last.access == b then [last] else []
  }

  /** In any run, with calls failing anywhere, an access is left as if only its own operations had been
      made. */
  lemma {:induction false} NoInterference(s: RouterState, ops: seq<Op>, b: Access)
    requires forall k :: 0 <= k < |ops| ==> ops[k].access == b || Unrelated(ops[k].access, b)
    ensures SameFor(Run(s, ops), Run(s, OpsOf(ops, b)), b)
  {
    hide SameFor, Step, Unrelated;
    if ops == [] {
      SameForItself(s, b);
    } else {
      var front, last := ops[..|ops| - 1], ops[|ops| - 1];
      NoInterference(s, front, b);
      if last.access == b {
        StepOfSame(Run(s, front), Run(s, OpsOf(front, b)), last);
        assert OpsOf(ops, b)[..|OpsOf(ops, b)| - 1] == OpsOf(front, b);
      } else {
        StepOfOther(Run(s, front), Run(s, OpsOf(front, b)), last, b);
        assert OpsOf(ops, b) == OpsOf(front, b);
      }
    }
  }

  lemma SameForItself(s: RouterState, b: Access)
    ensures SameFor(s, s, b)
  {}

  /** Once restored with every call through, a client stays served and off the list whatever is done to
      the others. */
  lemma {:induction false} RestoredStaysClear(s: RouterState, ops: seq<Op>, b: Access)
    requires b.macAddress != "" && forall k :: 0 <= k < |ops| ==> Unrelated(ops[k].access, b)
    ensures Clear(Run(Restore(s, b, ALL_CALLS).state, ops), b)
  {
    hide Step, Unrelated;
    var t := Restore(s, b, ALL_CALLS).state;
    RestoredMeans(s, b, ALL_CALLS);
    NoneOf(ops, b);
    NoInterference(t, ops, b);
    var u := Run(t, ops);
    FlipFinds(u.leases, t.leases, LeaseKey(b));
    FlipFinds(u.queues, t.queues, QueueName(b));
  }

  lemma {:induction false} NoneOf(ops: seq<Op>, b: Access)
    requires forall k :: 0 <= k < |ops| ==> Unrelated(ops[k].access, b)
    ensures OpsOf(ops, b) == []
  {
    if ops != [] { NoneOf(ops[..|ops| - 1], b); }
  }
}

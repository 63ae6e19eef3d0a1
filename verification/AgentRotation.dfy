/** Models `assignNextAgent` of src/modules/crm/crm.service.ts. Agents are their identifiers, in the
    ascending order the query gives them. */
module AgentRotation {
  import opened Wrappers

  predicate Ordered(agents: seq<nat>) { forall i, j :: 0 <= i < j < |agents| ==> agents[i] < agents[j] }

  /** `findIndex`, -1 when absent. */
  function IndexOf(agents: seq<nat>, id: nat): (i: int)
    ensures -1 <= i < |agents|
    ensures if i == -1 then id !in agents else agents[i] == id
  {
    if agents == [] then -1
    else if agents[0] == id then 0
    else if IndexOf(agents[1..], id) == -1 then -1 else 1 + IndexOf(agents[1..], id)
  }

  /** Who is next after the last one assigned. */
  function Next(agents: seq<nat>, last: Option<nat>): Option<nat> {
    if agents == [] then None
    else
      var lastIndex := if last.Some? then IndexOf(agents, last.value) else -1;
      Some(agents[if lastIndex == -1 then 0 else (lastIndex + 1) % |agents|])
  }

  class CrmService {
    /** The cursor row, missing before the first assignment. */
    var cursor: Option<nat>

    constructor ()
      ensures cursor == None
    {
      cursor := None;
    }

    method AssignNextAgent(activeAgents: seq<nat>) returns (chosen: Option<nat>)
      modifies this
      ensures chosen == Next(activeAgents, old(cursor))
      ensures cursor == if chosen.Some? then chosen else old(cursor)
    {
      if |activeAgents| == 0 { return None; }
      var nextIndex := 0;
      if cursor.Some? {
        var lastIndex := 0;
        while lastIndex < |activeAgents| && activeAgents[lastIndex] != cursor.value
          invariant 0 <= lastIndex <= |activeAgents|
          invariant forall k :: 0 <= k < lastIndex ==> activeAgents[k] != cursor.value
        {
          lastIndex := lastIndex + 1;
        }
        FirstIndex(activeAgents, cursor.value, lastIndex);
        nextIndex := if lastIndex == |activeAgents| then 0 else (lastIndex + 1) % |activeAgents|;
      }
      chosen := Some(activeAgents[nextIndex]);
      cursor := chosen;
    }
  }

  lemma {:induction false} FirstIndex(agents: seq<nat>, id: nat, i: nat)
    requires i <= |agents| && (i < |agents| ==> agents[i] == id)
    requires forall k :: 0 <= k < i ==> agents[k] != id
    ensures IndexOf(agents, id) == if i == |agents| then -1 else i
  {
    if i > 0 { FirstIndex(agents[1..], id, i - 1); }
  }

  // --- One step ------------------------------------------------------------------

  /** Where the next pick is. */
  function Position(agents: seq<nat>, last: Option<nat>): (i: nat)
    requires agents != []
    ensures i < |agents|
  {
    var lastIndex := if last.Some? then IndexOf(agents, last.value) else -1;
    if lastIndex == -1 then 0 else (lastIndex + 1) % |agents|
  }

  lemma NextIsAt(agents: seq<nat>, last: Option<nat>)
    requires agents != []
    ensures Next(agents, last) == Some(agents[Position(agents, last)])
  {}

  lemma IndexIs(agents: seq<nat>, i: nat)
    requires Ordered(agents) && i < |agents|
    ensures IndexOf(agents, agents[i]) == i
  {
    FirstIndex(agents, agents[i], i);
  }

  lemma PositionAfter(agents: seq<nat>, i: nat)
    requires Ordered(agents) && i < |agents|
    ensures Position(agents, Some(agents[i])) == if i + 1 == |agents| then 0 else i + 1
  {
    IndexIs(agents, i);
    Wraps(|agents|, i);
  }

  lemma Wraps(n: nat, i: nat)
    requires i < n
    ensures (i + 1) % n == if i + 1 == n then 0 else i + 1
  {}

  /** The least active identifier above the last one, when there is one. */
  predicate Succeeds(agents: seq<nat>, last: nat, chosen: nat) {
    last < chosen && forall a :: a in agents ==> a <= last || chosen <= a
  }

  predicate Least(agents: seq<nat>, chosen: nat) { forall a :: a in agents ==> chosen <= a }

  /** The agent chosen is active; it is the one with the least identifier above the last one's, or the least
      of all when the last one was the greatest or is no longer active. */
  lemma ChosenFollowsLast(agents: seq<nat>, last: Option<nat>)
    requires Ordered(agents) && agents != []
    ensures Next(agents, last).Some? && Next(agents, last).value in agents
    ensures if last.Some? && last.value in agents && last.value != agents[|agents| - 1]
      then Succeeds(agents, last.value, Next(agents, last).value)
      else Least(agents, Next(agents, last).value)
  {
    hide Next, Position;
    NextIsAt(agents, last);
    if last.Some? && last.value in agents {
      PositionAfter(agents, IndexOf(agents, last.value));
    } else {
      StartsOver(agents, last);
    }
  }

  lemma StartsOver(agents: seq<nat>, last: Option<nat>)
    requires agents != [] && (last.Some? ==> last.value !in agents)
    ensures Position(agents, last) == 0
  {}

  // --- A fixed set of agents ---------------------------------------------------------

  /** The agents chosen in `m` assignments in a row. */
  function Picks(agents: seq<nat>, last: Option<nat>, m: nat): (picks: seq<nat>)
    requires agents != []
    ensures |picks| == m
  {
    if m == 0 then []
    else
      var front := Picks(agents, last, m - 1);
      front + [Next(agents, if front == [] then last else Some(front[m - 2])).value]
  }

  function Count(picks: seq<nat>, agent: nat): nat {
    if picks == [] then 0 else Count(picks[..|picks| - 1], agent) + if picks[|picks| - 1] == agent then 1 else 0
  }

  /** How many picks after position `s` position `j` comes up. */
  function Wait(n: nat, s: nat, j: nat): nat
    requires s < n && j < n
  {
    if s <= j then j - s else j + n - s
  }

  /** The position reached after a whole number of rounds from `s` and `d` picks more. */
  function Turned(n: nat, s: nat, d: nat): (i: nat)
    requires s < n && d < n
    ensures i < n
  {
    if s + d < n then s + d else s + d - n
  }

  /** After `m` picks from position `s`, every agent has had `m / n` of them, and one more if it comes up
      within the first `m % n`. */
  predicate Share(agents: seq<nat>, last: Option<nat>, q: nat, d: nat)
    requires agents != []
  {
    var n, s, m := |agents|, Position(agents, last), q * |agents| + d;
    d < n
    && (forall j :: 0 <= j < n ==> Count(Picks(agents, last, m), agents[j]) == q + if Wait(n, s, j) < d then 1 else 0)
    && Position(agents, if m == 0 then last else Some(Picks(agents, last, m)[m - 1])) == Turned(n, s, d)
  }

  /** One pick more: the position it takes is `Turned(n, s, d)`, whose wait is `d`. */
  lemma PickTakes(agents: seq<nat>, last: Option<nat>, q: nat, d: nat)
    requires Ordered(agents) && agents != [] && Share(agents, last, q, d)
    ensures var m, i := q * |agents| + d, Turned(|agents|, Position(agents, last), d);
      Picks(agents, last, m + 1) == Picks(agents, last, m) + [agents[i]]
      && Position(agents, Some(agents[i])) == if i + 1 == |agents| then 0 else i + 1
  {
    hide Position, Count;
    var m := q * |agents| + d;
    PositionAfter(agents, Turned(|agents|, Position(agents, last), d));
    var was := if m == 0 then last else Some(Picks(agents, last, m)[m - 1]);
    NextIsAt(agents, was);
  }

  lemma CountPush(picks: seq<nat>, agent: nat, other: nat)
    ensures Count(picks + [agent], other) == Count(picks, other) + if agent == other then 1 else 0
  {
    assert (picks + [agent])[..|picks|] == picks;
  }

  lemma ShareStep(agents: seq<nat>, last: Option<nat>, q: nat, d: nat)
    requires Ordered(agents) && agents != [] && Share(agents, last, q, d)
    ensures if d + 1 == |agents| then Share(agents, last, q + 1, 0) else Share(agents, last, q, d + 1)
  {
    hide Position, Count, Picks, Ordered;
    var n, s, m := |agents|, Position(agents, last), q * |agents| + d;
    var i := Turned(n, s, d);
    PickTakes(agents, last, q, d);
    var picks := Picks(agents, last, m);
    forall j | 0 <= j < n
      ensures Count(Picks(agents, last, m + 1), agents[j]) == q + if Wait(n, s, j) <= d then 1 else 0
    {
      CountPush(picks, agents[i], agents[j]);
      Distinct(agents, i, j);
    }
    assert (q + 1) * n + 0 == q * n + n;
    assert Picks(agents, last, m + 1)[m] == agents[i];
  }

  lemma Distinct(agents: seq<nat>, i: nat, j: nat)
    requires Ordered(agents) && i < |agents| && j < |agents|
    ensures agents[i] == agents[j] <==> i == j
  {}

  lemma ShareNone(agents: seq<nat>, last: Option<nat>)
    requires agents != []
    ensures Share(agents, last, 0, 0)
  {
    hide Position;
    assert Picks(agents, last, 0) == [];
  }

  lemma {:induction false} Shares(agents: seq<nat>, last: Option<nat>, m: nat) returns (q: nat, d: nat)
    requires Ordered(agents) && agents != []
    ensures m == q * |agents| + d && Share(agents, last, q, d)
  {
    hide Share, Ordered;
    if m == 0 {
      q, d := 0, 0;
      ShareNone(agents, last);
    } else {
      q, d := Shares(agents, last, m - 1);
      ShareStep(agents, last, q, d);
      if d + 1 == |agents| { q, d := q + 1, 0; } else { d := d + 1; }
    }
  }

  /** Wherever the rotation stands, as many assignments in a row as there are agents reach each exactly
      once. */
  lemma WindowHitsEachOnce(agents: seq<nat>, last: Option<nat>, agent: nat)
    requires Ordered(agents) && agent in agents
    ensures Count(Picks(agents, last, |agents|), agent) == 1
  {
    hide Position, Count, Picks, Ordered, Wait;
    var q, d := Shares(agents, last, |agents|);
    OneRound(|agents|, q, d);
    var j :| 0 <= j < |agents| && agents[j] == agent;
  }

  lemma OneRound(n: nat, q: nat, d: nat)
    requires n == q * n + d && d < n
    ensures q == 1 && d == 0
  {
    if q >= 2 { AtLeast(2, q, n); }
  }

  lemma AtLeast(a: nat, b: nat, n: nat)
    requires a <= b
    ensures a * n <= b * n
  {}

  /** Over any number of assignments no agent gets two more than another. */
  lemma CountsDifferByOne(agents: seq<nat>, last: Option<nat>, m: nat, a: nat, b: nat)
    requires Ordered(agents) && a in agents && b in agents
    ensures Count(Picks(agents, last, m), a) <= Count(Picks(agents, last, m), b) + 1
  {
    hide Position, Count, Picks, Ordered, Wait;
    var q, d := Shares(agents, last, m);
    var i :| 0 <= i < |agents| && agents[i] == a;
    var j :| 0 <= j < |agents| && agents[j] == b;
  }

  // --- A changing set ----------------------------------------------------------------------

  /** Assignments over a set of agents that changes from one to the next. */
  function PicksOver(sets: seq<seq<nat>>, last: Option<nat>): (picks: seq<Option<nat>>)
    ensures |picks| == |sets|
  {
    if sets == [] then []
    else
      var chosen := Next(sets[0], last);
      [chosen] + PicksOver(sets[1..], if chosen.Some? then chosen else last)
  }

  /** How many of the agents of a set come after the last one, up to `c`, in the cyclic order of
      identifiers. */
  function Ahead(all: set<nat>, last: Option<nat>, c: nat): (ahead: set<nat>) {
    if last.Some? && last.value < c then set a | a in all && last.value < a <= c
    else if last.Some? then set a | a in all && (a > last.value || a <= c)
    else set a | a in all && a <= c
  }

  /** The rotation falls back before an agent it was coming to: the last one assigned is below it and has
      left, and another active one is below the last. */
  predicate Setback(agents: seq<nat>, last: Option<nat>, c: nat) {
    last.Some? && last.value < c && last.value !in agents && exists a :: a in agents && a < last.value
  }

  lemma SmallerSet(a: set<nat>, b: set<nat>)
    requires a < b
    ensures |a| < |b|
  {
    assert b == a + (b - a);
    assert |b| == |a| + |b - a|;
  }

  lemma SubsetOf(a: set<nat>, b: set<nat>)
    requires a <= b
    ensures |a| <= |b|
  {
    if a != b { SmallerSet(a, b); }
  }

  lemma AheadMoves(all: set<nat>, last: Option<nat>, c: nat, chosen: nat)
    requires chosen in all && chosen != c
    requires if last.None? then chosen < c
      else if last.value < c then last.value < chosen < c
      else last.value < chosen || chosen < c
    ensures Ahead(all, Some(chosen), c) < Ahead(all, last, c)
  {
    assert chosen in Ahead(all, last, c) && chosen !in Ahead(all, Some(chosen), c);
  }

  /** An assignment chooses an active agent or comes nearer to it, except exactly at a setback. */
  lemma ComesNearerExactly(agents: seq<nat>, last: Option<nat>, c: nat, all: set<nat>)
    requires Ordered(agents) && c in agents && forall a :: a in agents ==> a in all
    ensures var chosen := Next(agents, last).value;
      Next(agents, last).Some?
      && (chosen == c || |Ahead(all, Some(chosen), c)| < |Ahead(all, last, c)| <==> !Setback(agents, last, c))
  {
    hide Next, Ordered, Ahead;
    ChosenFollowsLast(agents, last);
    var chosen := Next(agents, last).value;
    if Setback(agents, last, c) {
      FallsBack(agents, last.value, c, chosen, all);
    } else if chosen != c {
      GreatestIsLast(agents);
      AheadMoves(all, last, c, chosen);
      SmallerSet(Ahead(all, Some(chosen), c), Ahead(all, last, c));
    }
  }

  lemma GreatestIsLast(agents: seq<nat>)
    requires Ordered(agents) && agents != []
    ensures forall a :: a in agents ==> a <= agents[|agents| - 1]
  {}

  lemma FallsBack(agents: seq<nat>, last: nat, c: nat, chosen: nat, all: set<nat>)
    requires Setback(agents, Some(last), c) && Least(agents, chosen) && c in all
    ensures chosen != c && |Ahead(all, Some(chosen), c)| >= |Ahead(all, Some(last), c)|
  {
    SubsetOf(Ahead(all, Some(last), c), Ahead(all, Some(chosen), c));
  }

  predicate LastStays(sets: seq<seq<nat>>, last: Option<nat>) {
    sets == []
    || ((last.Some? ==> last.value in sets[0])
        && LastStays(sets[1..], if Next(sets[0], last).Some? then Next(sets[0], last) else last))
  }

  predicate NoSetback(sets: seq<seq<nat>>, last: Option<nat>, c: nat) {
    sets == []
    || (!Setback(sets[0], last, c)
        && NoSetback(sets[1..], if Next(sets[0], last).Some? then Next(sets[0], last) else last, c))
  }

  lemma {:induction false} LastStaysNoSetback(sets: seq<seq<nat>>, last: Option<nat>, c: nat)
    requires LastStays(sets, last)
    ensures NoSetback(sets, last, c)
  {
    if sets != [] {
      LastStaysNoSetback(sets[1..], if Next(sets[0], last).Some? then Next(sets[0], last) else last, c);
    }
  }

  ghost predicate AlwaysActive(sets: seq<seq<nat>>, c: nat, all: set<nat>) {
    forall k :: 0 <= k < |sets| ==> Ordered(sets[k]) && c in sets[k] && forall a :: a in sets[k] ==> a in all
  }

  lemma {:induction false} ReachedAhead(sets: seq<seq<nat>>, last: Option<nat>, c: nat, all: set<nat>)
    requires AlwaysActive(sets, c, all) && NoSetback(sets, last, c) && |sets| >= |Ahead(all, last, c)| > 0
    ensures exists k :: 0 <= k < |Ahead(all, last, c)| && PicksOver(sets, last)[k] == Some(c)
  {
    hide Next, Ordered, Ahead, Setback;
    var chosen := Next(sets[0], last);
    ComesNearerExactly(sets[0], last, c, all);
    var picks := PicksOver(sets, last);
    if chosen == Some(c) {
      assert picks[0] == Some(c);
    } else {
      assert c in Ahead(all, chosen, c) by { StillAhead(all, chosen, c); }
      ReachedAhead(sets[1..], chosen, c, all);
      var k :| 0 <= k < |Ahead(all, chosen, c)| && PicksOver(sets[1..], chosen)[k] == Some(c);
      assert picks[k + 1] == Some(c);
    }
  }

  lemma StillAhead(all: set<nat>, last: Option<nat>, c: nat)
    requires c in all
    ensures c in Ahead(all, last, c) && Ahead(all, last, c) <= all
  {}

  /** However the set of agents changes, an agent active all the time is chosen within as many assignments as
      there are agents that are ever active, if no assignment is a setback for it; none is while the last
      agent assigned is always still active at the next assignment. */
  lemma ReachedInTime(sets: seq<seq<nat>>, last: Option<nat>, c: nat, all: set<nat>)
    requires AlwaysActive(sets, c, all) && c in all && |sets| >= |all|
    requires NoSetback(sets, last, c) || LastStays(sets, last)
    ensures exists k :: 0 <= k < |all| && PicksOver(sets, last)[k] == Some(c)
  {
    hide AlwaysActive, Ahead, PicksOver, NoSetback, LastStays;
    if LastStays(sets, last) { LastStaysNoSetback(sets, last, c); }
    StillAhead(all, last, c);
    SubsetOf(Ahead(all, last, c), all);
    ReachedAhead(sets, last, c, all);
  }

  /** Two other agents that come and go by turns. */
  function Churn(a: nat, b: nat, c: nat, m: nat): (sets: seq<seq<nat>>)
    ensures |sets| == m
    decreases m
  {
    if m == 0 then [] else [[a, c]] + Churn(b, a, c, m - 1)
  }

  lemma TakesFirst(a: nat, c: nat, last: Option<nat>)
    requires a < c && last != Some(a) && last != Some(c)
    ensures Next([a, c], last) == Some(a)
  {
    if last.Some? { assert IndexOf([a, c], last.value) == -1; }
  }

  lemma ChurnSetsBack(a: nat, b: nat, c: nat, m: nat)
    requires a != b && a < c && b < c && m > 1
    ensures var rest := Churn(b, a, c, m - 1);
      rest[0] == [b, c] && rest[1..] == Churn(a, b, c, m - 2) && Next([b, c], Some(a)) == Some(b)
      && a !in [b, c] && (Setback([b, c], Some(a), c) <==> b < a)
      && (m > 2 ==> Churn(a, b, c, m - 2)[0] == [a, c] && (Setback([a, c], Some(b), c) <==> a < b))
  {
    assert IndexOf([b, c], a) == -1;
    assert b in [b, c] && a in [a, c];
  }

  /** With setbacks an agent that is active all the time may wait for ever, among no more than three agents:
      whenever the last one assigned has left, the rotation begins again with the least. */
  lemma {:induction false} AlwaysPassedOver(a: nat, b: nat, c: nat, last: Option<nat>, m: nat)
    requires a != b && a < c && b < c && last != Some(a) && last != Some(c)
    ensures AlwaysActive(Churn(a, b, c, m), c, {a, b, c})
    ensures Some(c) !in PicksOver(Churn(a, b, c, m), last)
    ensures m >= 2 ==> !LastStays(Churn(a, b, c, m), last)
    ensures m >= 3 ==> !NoSetback(Churn(a, b, c, m), last, c)
    decreases m
  {
    hide IndexOf, Next, Setback;
    if m > 0 {
      var sets := Churn(a, b, c, m);
      assert sets[0] == [a, c] && sets[1..] == Churn(b, a, c, m - 1);
      TakesFirst(a, c, last);
      AlwaysPassedOver(b, a, c, Some(a), m - 1);
      assert forall k :: 0 < k < m ==> sets[k] == sets[1..][k - 1];
      if m > 1 { ChurnSetsBack(a, b, c, m); }
      if m > 2 {
        var rest := Churn(b, a, c, m - 1);
        assert NoSetback(rest, Some(a), c) == (!Setback([b, c], Some(a), c) && NoSetback(rest[1..], Some(b), c));
        assert NoSetback(rest[1..], Some(b), c) ==> !Setback([a, c], Some(b), c);
      }
    }
  }
}

/** Models src/modules/billing/suspension-history.service.ts: one row per
    suspension episode of a contract. */
module SuspensionHistory {
  datatype Episode = Episode(contractId: nat, reconnected: bool)

  function Opened(episodes: seq<Episode>, c: nat): seq<Episode> { episodes + [Episode(c, false)] }

  /** Closes the most recent open episode of the contract, if there is one. */
  function Closed(episodes: seq<Episode>, c: nat): seq<Episode> {
    if episodes == [] then []
    else
      var last := episodes[|episodes| - 1];
      if last.contractId == c && !last.reconnected then episodes[..|episodes| - 1] + [Episode(c, true)]
      else Closed(episodes[..|episodes| - 1], c) + [last]
  }

  function OpenCount(episodes: seq<Episode>, c: nat): nat {
    if episodes == [] then 0
    else
      var last := episodes[|episodes| - 1];
      OpenCount(episodes[..|episodes| - 1], c) + if last.contractId == c && !last.reconnected then 1 else 0
  }

  lemma OpenedCount(episodes: seq<Episode>, c: nat, d: nat)
    ensures OpenCount(Opened(episodes, c), d) == OpenCount(episodes, d) + if c == d then 1 else 0
  {
    assert Opened(episodes, c)[..|episodes|] == episodes;
  }

  /** Closing ends one open episode of that contract, when there is one, and keeps all others. */
  lemma {:induction false} ClosedCount(episodes: seq<Episode>, c: nat, d: nat)
    ensures |Closed(episodes, c)| == |episodes|
    ensures OpenCount(Closed(episodes, c), d) ==
      if c == d && OpenCount(episodes, c) > 0 then OpenCount(episodes, d) - 1 else OpenCount(episodes, d)
  {
    if episodes != [] {
      var front := episodes[..|episodes| - 1];
      ClosedCount(front, c, d);
      var closed := Closed(episodes, c);
      if episodes[|episodes| - 1].contractId == c && !episodes[|episodes| - 1].reconnected {
        assert closed[..|closed| - 1] == front;
      } else {
        assert closed[..|closed| - 1] == Closed(front, c);
      }
    }
  }

  /** Nothing but the `reconnected` mark of a row ever changes. */
  lemma {:induction false} ClosedKeepsRows(episodes: seq<Episode>, c: nat, i: nat)
    requires i < |episodes|
    ensures |Closed(episodes, c)| == |episodes|
    ensures Closed(episodes, c)[i].contractId == episodes[i].contractId
    ensures episodes[i].reconnected ==> Closed(episodes, c)[i].reconnected
  {
    if i == |episodes| - 1 {
      ClosedCount(episodes[..|episodes| - 1], c, c);
    } else {
      ClosedKeepsRows(episodes[..|episodes| - 1], c, i);
    }
  }

  /** The most recent open episode of a contract. */
  predicate IsLastOpen(episodes: seq<Episode>, c: nat, i: nat) {
    i < |episodes| && episodes[i] == Episode(c, false)
    && forall k :: i < k < |episodes| ==> episodes[k] != Episode(c, false)
  }

  /** Closing marks exactly that one and leaves every other row as it was. */
  lemma {:induction false} ClosedExactly(episodes: seq<Episode>, c: nat, i: nat)
    requires i < |episodes|
    ensures |Closed(episodes, c)| == |episodes|
    ensures Closed(episodes, c)[i] == if IsLastOpen(episodes, c, i) then Episode(c, true) else episodes[i]
  {
    ClosedCount(episodes, c, c);
    var n := |episodes| - 1;
    if i < n {
      ClosedExactly(episodes[..n], c, i);
      assert episodes[n] != Episode(c, false) ==>
        (IsLastOpen(episodes, c, i) <==> IsLastOpen(episodes[..n], c, i));
    } else {
      ClosedCount(episodes[..n], c, c);
    }
  }
}

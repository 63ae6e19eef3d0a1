/** What else holds of the refresh-token table while no token expires before the one it replaces, as with a
    lifetime that stays or grows: the tokens of a family form one chain. */
module RefreshTokenChains {
  import opened Wrappers
  import opened RefreshTokens

  // --- Chains ---------------------------------------------------------------------------

  /** The tokens of a family, oldest first. */
  function Chain(rows: seq<Token>, f: nat): seq<Token> {
    if rows == [] then []
    else Chain(rows[..|rows| - 1], f) + if rows[|rows| - 1].familyId == f then [rows[|rows| - 1]] else []
  }

  /** Every token but the last is revoked and points to the next one; the last points nowhere. */
  ghost predicate Linked(c: seq<Token>) {
    && (forall i :: 0 <= i < |c| - 1 ==> c[i].revokedAt.Some? && c[i].replacedBy == Some(c[i + 1].hash))
    && (c != [] ==> c[|c| - 1].replacedBy == None)
  }

  ghost predicate Aging(c: seq<Token>) { forall i, j :: 0 <= i < j < |c| ==> c[i].expiresAt <= c[j].expiresAt }

  ghost predicate ChainOk(c: seq<Token>) { Linked(c) && Aging(c) }

  ghost predicate ChainsOk(rows: seq<Token>) { forall f: nat :: ChainOk(Chain(rows, f)) }

  ghost predicate Inv(db: Store) { Sound(db) && ChainsOk(db.rows) }

  lemma {:induction false} ChainOfAppend(rows: seq<Token>, t: Token, f: nat)
    ensures Chain(rows + [t], f) == Chain(rows, f) + if t.familyId == f then [t] else []
  {
    assert (rows + [t])[..|rows|] == rows;
  }

  lemma {:induction false} ChainElements(rows: seq<Token>, f: nat, j: nat)
    requires j < |Chain(rows, f)|
    ensures Chain(rows, f)[j].familyId == f && Chain(rows, f)[j] in rows
  {
    if j < |Chain(rows[..|rows| - 1], f)| { ChainElements(rows[..|rows| - 1], f, j); }
  }

  lemma {:induction false} ChainPosition(rows: seq<Token>, i: nat) returns (j: nat)
    requires i < |rows|
    ensures j < |Chain(rows, rows[i].familyId)| && Chain(rows, rows[i].familyId)[j] == rows[i]
  {
    if i == |rows| - 1 {
      j := |Chain(rows[..|rows| - 1], rows[i].familyId)|;
    } else {
      j := ChainPosition(rows[..|rows| - 1], i);
    }
  }

  lemma {:induction false} ChainRising(rows: seq<Token>, f: nat)
    requires Rising(rows)
    ensures Rising(Chain(rows, f))
  {
    if rows != [] {
      var front := rows[..|rows| - 1];
      ChainRising(front, f);
      forall j | 0 <= j < |Chain(front, f)| ensures Chain(front, f)[j].hash < rows[|rows| - 1].hash {
        ChainElements(front, f, j);
      }
    }
  }

  lemma {:induction false} ChainOfRevoked(rows: seq<Token>, which: Selection, at: int, f: nat)
    ensures Chain(Revoked(rows, which, at), f) == Revoked(Chain(rows, f), which, at)
  {
    if rows != [] {
      ChainOfRevoked(rows[..|rows| - 1], which, at, f);
      assert Revoked(rows, which, at)[..|rows| - 1] == Revoked(rows[..|rows| - 1], which, at);
    }
  }

  lemma {:induction false} ChainOfReplaced(rows: seq<Token>, hash: nat, by_: nat, at: int, f: nat)
    ensures Chain(Replaced(rows, hash, by_, at), f) == Replaced(Chain(rows, f), hash, by_, at)
  {
    if rows != [] {
      ChainOfReplaced(rows[..|rows| - 1], hash, by_, at, f);
      assert Replaced(rows, hash, by_, at)[..|rows| - 1] == Replaced(rows[..|rows| - 1], hash, by_, at);
    }
  }

  lemma {:induction false} ChainOfCleanup(rows: seq<Token>, cutoff: int, f: nat)
    ensures Chain(NotExpiredBefore(rows, cutoff), f) == NotExpiredBefore(Chain(rows, f), cutoff)
  {
    if rows != [] {
      var front, last := rows[..|rows| - 1], rows[|rows| - 1];
      ChainOfCleanup(front, cutoff, f);
      if last.expiresAt < cutoff {
        assert NotExpiredBefore(rows, cutoff) == NotExpiredBefore(front, cutoff);
      } else {
        ChainOfAppend(NotExpiredBefore(front, cutoff), last, f);
      }
      if last.familyId == f {
        assert Chain(rows, f)[..|Chain(rows, f)| - 1] == Chain(front, f);
      } else {
        assert Chain(rows, f) == Chain(front, f);
      }
    }
  }

  /** Where tokens age in order, a cleanup only removes the oldest. */
  lemma {:induction false} CleanupIsSuffix(c: seq<Token>, cutoff: int) returns (k: nat)
    requires Aging(c)
    ensures k <= |c| && NotExpiredBefore(c, cutoff) == c[k..]
    ensures forall i :: 0 <= i < k ==> c[i].expiresAt < cutoff
  {
    if c == [] {
      k := 0;
    } else if c[|c| - 1].expiresAt < cutoff {
      AllExpired(c, cutoff);
      k := |c|;
    } else {
      k := CleanupIsSuffix(c[..|c| - 1], cutoff);
      assert c[k..] == c[..|c| - 1][k..] + [c[|c| - 1]];
    }
  }

  lemma {:induction false} AllExpired(c: seq<Token>, cutoff: int)
    requires forall i :: 0 <= i < |c| ==> c[i].expiresAt < cutoff
    ensures NotExpiredBefore(c, cutoff) == []
  {
    if c != [] { AllExpired(c[..|c| - 1], cutoff); }
  }

  lemma LiveIsLast(db: Store, t: Token) returns (k: nat)
    requires Inv(db) && t in db.rows && t.revokedAt.None?
    ensures var c := Chain(db.rows, t.familyId); k + 1 == |c| && c[k] == t
  {
    hide Sound, Aging;
    var i :| 0 <= i < |db.rows| && db.rows[i] == t;
    k := ChainPosition(db.rows, i);
    assert ChainOk(Chain(db.rows, t.familyId));
  }

  lemma ReplacedElsewhere(db: Store, t: Token, f: nat)
    requires Rising(db.rows) && t in db.rows && f != t.familyId
    ensures Replaced(Chain(db.rows, f), t.hash, db.nextId, db.clock) == Chain(db.rows, f)
  {
    hide Chain;
    var c := Chain(db.rows, f);
    forall j | 0 <= j < |c| ensures c[j].hash != t.hash {
      ChainElements(db.rows, f, j);
      if c[j].hash == t.hash { FindUnique(db.rows, t); FindUnique(db.rows, c[j]); }
    }
  }

  lemma ReplacedAtEnd(c: seq<Token>, t: Token, by_: nat, at: int)
    requires Rising(c) && c != [] && c[|c| - 1] == t
    ensures Replaced(c, t.hash, by_, at) == c[..|c| - 1] + [t.(revokedAt := Some(at), replacedBy := Some(by_))]
  {}

  /** Rotation marks the end of one chain, appends the new token to it, and leaves the other chains alone. */
  lemma RotationExtendsChain(db: Store, lifetime: nat, userId: nat, t: Token, f: nat)
    requires Inv(db) && t in db.rows && t.revokedAt.None?
    ensures f != t.familyId ==> Chain(Rotated(db, lifetime, userId, t).rows, f) == Chain(db.rows, f)
    ensures f == t.familyId ==>
      var c := Chain(db.rows, f);
      |c| > 0 && c[|c| - 1] == t && Chain(Rotated(db, lifetime, userId, t).rows, f) ==
        c[..|c| - 1] + [t.(revokedAt := Some(db.clock), replacedBy := Some(db.nextId))]
             + [Token(db.nextId, userId, f, db.clock + lifetime, None, None)]
  {
    hide Chain, Replaced, InOrder, OneUserPerFamily, PointersStayInFamily, ChainOk;
    var new_ := Token(db.nextId, userId, t.familyId, db.clock + lifetime, None, None);
    ChainOfReplaced(db.rows + [new_], t.hash, db.nextId, db.clock, f);
    ChainOfAppend(db.rows, new_, f);
    assert t.hash < db.nextId by { assert TokenOk(db.nextId, t); }
    ReplacedAppend(Chain(db.rows, f), new_, t.hash, db.nextId, db.clock);
    if f == t.familyId {
      var k := LiveIsLast(db, t);
      ChainRising(db.rows, f);
      ReplacedAtEnd(Chain(db.rows, f), t, db.nextId, db.clock);
    } else {
      ReplacedElsewhere(db, t, f);
      assert Chain(db.rows, f) + [] == Chain(db.rows, f);
    }
  }

  lemma ReplacedAppend(c: seq<Token>, u: Token, hash: nat, by_: nat, at: int)
    ensures u.hash != hash ==> Replaced(c + [u], hash, by_, at) == Replaced(c, hash, by_, at) + [u]
  {}

  lemma InvRotated(db: Store, lifetime: nat, t: Token)
    requires Inv(db) && t in db.rows && t.revokedAt.None? && t.expiresAt <= db.clock + lifetime
    ensures Inv(Rotated(db, lifetime, t.userId, t))
  {
    hide Sound, Chain, Rotated;
    var after := Rotated(db, lifetime, t.userId, t);
    SoundRotated(db, lifetime, t);
    forall f: nat ensures ChainOk(Chain(after.rows, f)) {
      assert ChainOk(Chain(db.rows, f));
      RotationExtendsChain(db, lifetime, t.userId, t, f);
    }
  }

  lemma InvLoggedIn(db: Store, lifetime: nat, userId: nat)
    requires Inv(db)
    ensures Inv(LoggedIn(db, lifetime, userId))
  {
    var new_ := Token(db.nextId + 1, userId, db.nextId, db.clock + lifetime, None, None);
    assert LoggedIn(db, lifetime, userId).rows == db.rows + [new_];
    SoundLoggedIn(db, lifetime, userId);
    hide Sound, Chain, LoggedIn, ChainOk;
    forall f: nat ensures ChainOk(Chain(LoggedIn(db, lifetime, userId).rows, f)) {
      ChainOfAppend(db.rows, new_, f);
      assert ChainOk(Chain(db.rows, f));
      if f == db.nextId {
        NewFamily(db);
        assert Chain(db.rows, f) + [new_] == [new_];
        ChainOfOne(new_);
      } else {
        assert Chain(db.rows, f) + [] == Chain(db.rows, f);
      }
    }
  }

  lemma ChainOfOne(t: Token)
    requires t.replacedBy.None?
    ensures ChainOk([t])
  {}

  lemma NewFamily(db: Store)
    requires Sound(db)
    ensures Chain(db.rows, db.nextId) == []
  {
    hide Chain;
    if Chain(db.rows, db.nextId) != [] {
      ChainElements(db.rows, db.nextId, 0);
      TokenIsOk(db, Chain(db.rows, db.nextId)[0]);
    }
  }

  lemma InvRevoked(db: Store, which: Selection)
    requires Inv(db)
    ensures Inv(db.(rows := Revoked(db.rows, which, db.clock)))
  {
    hide Sound, Chain;
    SoundRevoked(db, which);
    forall f: nat ensures ChainOk(Chain(Revoked(db.rows, which, db.clock), f)) {
      ChainOfRevoked(db.rows, which, db.clock, f);
      assert ChainOk(Chain(db.rows, f));
    }
  }

  lemma InvCleanup(db: Store, cutoff: int)
    requires Inv(db)
    ensures Inv(db.(rows := NotExpiredBefore(db.rows, cutoff)))
  {
    hide Sound, Chain;
    SoundCleanup(db, cutoff);
    forall f: nat ensures ChainOk(Chain(NotExpiredBefore(db.rows, cutoff), f)) {
      var j := CleanupOfChain(db, cutoff, f);
      assert ChainOk(Chain(db.rows, f));
    }
  }

  /** A cleanup keeps of every chain its newest tokens; what it drops has expired. */
  lemma CleanupOfChain(db: Store, cutoff: int, f: nat) returns (k: nat)
    requires Inv(db)
    ensures var c := Chain(db.rows, f);
      k <= |c| && Chain(NotExpiredBefore(db.rows, cutoff), f) == c[k..]
      && forall i :: 0 <= i < k ==> c[i].expiresAt < cutoff
  {
    hide Sound, Chain, Linked;
    ChainOfCleanup(db.rows, cutoff, f);
    assert ChainOk(Chain(db.rows, f));
    k := CleanupIsSuffix(Chain(db.rows, f), cutoff);
  }

  /** A rotation issues no token that expires before the one it replaces. */
  predicate Outlives(db: Store, e: Event) {
    e.Refresh? && Find(db.rows, e.hash).Some? && Standing(db, Find(db.rows, e.hash).value).Some? ==>
      Standing(db, Find(db.rows, e.hash).value).value.expiresAt <= db.clock + e.lifetime
  }

  lemma InvStep(db: Store, e: Event)
    requires Inv(db) && Outlives(db, e)
    ensures Inv(Step(db, e))
  {
    hide Sound, ChainsOk, Rotated, LoggedIn;
    match e
    case Login(u, lifetime) => InvLoggedIn(db, lifetime, u);
    case Logout(h) => InvRevoked(db, ByHash(h));
    case Reset(u) => InvRevoked(db, ByUser(u));
    case Cleanup => InvCleanup(db, db.clock - RETENTION_MS);
    case Wait(ms) => SoundWait(db, ms);
    case Refresh(h, verified, active, lifetime) =>
      var found := Find(db.rows, h);
      if verified && found.Some? {
        FindSound(db.rows, h);
        StandingIsLive(db, found.value);
        var stored := Standing(db, found.value);
        if stored.None? {
          InvRevoked(db, ByFamily(found.value.familyId));
        } else if active {
          InvRotated(db, lifetime, stored.value);
        }
      }
  }

  ghost predicate AllOutlive(clock: int, events: seq<Event>) {
    forall k :: 0 <= k < |events| ==> Outlives(Run(Store([], 0, clock), events[..k]), events[k])
  }

  lemma PrefixOutlives(clock: int, events: seq<Event>)
    requires events != [] && AllOutlive(clock, events)
    ensures AllOutlive(clock, events[..|events| - 1])
  {
    hide Outlives, Run;
    var front := events[..|events| - 1];
    forall k | 0 <= k < |front| ensures Outlives(Run(Store([], 0, clock), front[..k]), front[k]) {
      assert front[..k] == events[..k] && front[k] == events[k];
    }
  }

  /** In every run without a rotation that shortens the life of a session, each family is one chain along
      `replacedBy`, in order of issue and of expiry. */
  lemma {:induction false} ChainsInEveryRun(clock: int, events: seq<Event>)
    requires AllOutlive(clock, events)
    ensures Inv(Run(Store([], 0, clock), events))
  {
    hide Inv, Outlives, Step;
    if events == [] {
      EmptyIsOk(clock);
    } else {
      PrefixOutlives(clock, events);
      ChainsInEveryRun(clock, events[..|events| - 1]);
      assert Outlives(Run(Store([], 0, clock), events[..|events| - 1]), events[|events| - 1]);
      InvStep(Run(Store([], 0, clock), events[..|events| - 1]), events[|events| - 1]);
    }
  }

  lemma EmptyIsOk(clock: int)
    ensures Inv(Store([], 0, clock))
  {}

  /** One lifetime for all tokens. */
  predicate HasLifetime(e: Event, lifetime: nat) {
    match e
    case Login(u, l) => l == lifetime
    case Refresh(h, verified, active, l) => l == lifetime
    case _ => true
  }

  ghost predicate ExpireWithin(db: Store, lifetime: nat) {
    forall t :: t in db.rows ==> t.expiresAt <= db.clock + lifetime
  }

  lemma ExpireWithinStep(db: Store, e: Event, lifetime: nat)
    requires ExpireWithin(db, lifetime) && HasLifetime(e, lifetime)
    ensures ExpireWithin(Step(db, e), lifetime) && Outlives(db, e)
  {
    var after := Step(db, e);
    if e.Cleanup? {
      forall t | t in after.rows ensures t in db.rows { CleanupKeepsExactly(db.rows, db.clock - RETENTION_MS, t); }
    } else if e.Refresh? {
      FindSound(db.rows, e.hash);
      StandingStored(db, e.hash);
      KeepsExpiry(db, e, lifetime);
    } else {
      KeepsExpiry(db, e, lifetime);
    }
  }

  lemma StandingStored(db: Store, h: nat)
    ensures Find(db.rows, h).Some? && Standing(db, Find(db.rows, h).value).Some? ==>
      Standing(db, Find(db.rows, h).value).value in db.rows
  {
    FindSound(db.rows, h);
    if Find(db.rows, h).Some? && Find(db.rows, h).value.replacedBy.Some? {
      FindSound(db.rows, Find(db.rows, h).value.replacedBy.value);
    }
  }

  lemma KeepsExpiry(db: Store, e: Event, lifetime: nat)
    requires ExpireWithin(db, lifetime) && HasLifetime(e, lifetime) && !e.Cleanup?
    ensures ExpireWithin(Step(db, e), lifetime)
  {
    hide Find, Standing;
    var after := Step(db, e);
    forall i | 0 <= i < |after.rows| ensures after.rows[i].expiresAt <= after.clock + lifetime {
      if i < |db.rows| { assert db.rows[i] in db.rows; }
    }
  }

  /** So it is with one lifetime for all tokens. */
  lemma {:induction false} OneLifetimeOutlives(clock: int, events: seq<Event>, lifetime: nat)
    requires forall k :: 0 <= k < |events| ==> HasLifetime(events[k], lifetime)
    ensures AllOutlive(clock, events) && ExpireWithin(Run(Store([], 0, clock), events), lifetime)
  {
    hide Outlives, Step, ExpireWithin;
    if events == [] {
      assert ExpireWithin(Store([], 0, clock), lifetime) by { NothingExpires(clock, lifetime); }
    } else {
      var n := |events| - 1;
      OneLifetimeOutlives(clock, events[..n], lifetime);
      ExpireWithinStep(Run(Store([], 0, clock), events[..n]), events[n], lifetime);
      forall k | 0 <= k < |events| ensures Outlives(Run(Store([], 0, clock), events[..k]), events[k]) {
        if k < n { assert events[..n][..k] == events[..k] && events[..n][k] == events[k]; }
      }
    }
  }

  lemma NothingExpires(clock: int, lifetime: nat)
    ensures ExpireWithin(Store([], 0, clock), lifetime)
  {}

  /** In a chain the acceptable tokens are its live end, and the one before a live end within the window. */
  lemma AcceptableInChain(db: Store, f: nat, k: nat)
    requires Inv(db) && k < |Chain(db.rows, f)|
    ensures var c := Chain(db.rows, f);
      Acceptable(db, c[k]) <==>
        (k == |c| - 1 && c[k].revokedAt.None?)
        || (k == |c| - 2 && c[k + 1].revokedAt.None? && InWindow(db, c[k].revokedAt.value))
  {
    hide Chain, InOrder, OneUserPerFamily, PointersStayInFamily, Aging, Acceptable, AcceptedFor;
    var c := Chain(db.rows, f);
    assert ChainOk(c);
    ChainElements(db.rows, f, k);
    FindUnique(db.rows, c[k]);
    if k + 1 < |c| {
      ChainElements(db.rows, f, k + 1);
      FindUnique(db.rows, c[k + 1]);
    }
    StandingExactly(db, c[k]);
  }

  // --- Pointers -----------------------------------------------------------------------------

  ghost predicate NoDanglingPointer(rows: seq<Token>) {
    forall t :: t in rows && t.replacedBy.Some? ==> Find(rows, t.replacedBy.value).Some?
  }

  ghost predicate Distinct(rows: seq<Token>) { forall i, j :: 0 <= i < j < |rows| ==> rows[i].hash != rows[j].hash }

  /** No token expires before the one it replaces. */
  ghost predicate SuccessorsOutlive(rows: seq<Token>) {
    forall t, u :: t in rows && u in rows && t.replacedBy == Some(u.hash) ==> t.expiresAt <= u.expiresAt
  }

  lemma Dangles(rows: seq<Token>, t: Token)
    requires t in rows && t.replacedBy.Some? && forall u :: u in rows ==> u.hash != t.replacedBy.value
    ensures !NoDanglingPointer(rows)
  {
    FindSound(rows, t.replacedBy.value);
  }

  /** In a table without dangling pointers, no cleanup at any time leaves one if and only if no token
      expires before the one it replaces. */
  lemma CleanupDanglesExactly(rows: seq<Token>)
    requires Distinct(rows) && NoDanglingPointer(rows)
    ensures (forall cutoff :: NoDanglingPointer(NotExpiredBefore(rows, cutoff))) <==> SuccessorsOutlive(rows)
  {
    if SuccessorsOutlive(rows) {
      forall cutoff ensures NoDanglingPointer(NotExpiredBefore(rows, cutoff)) { OutlivedResolve(rows, cutoff); }
    } else {
      var t, u :| t in rows && u in rows && t.replacedBy == Some(u.hash) && t.expiresAt > u.expiresAt;
      var cleaned := NotExpiredBefore(rows, t.expiresAt);
      CleanupKeepsExactly(rows, t.expiresAt, t);
      forall v | v in cleaned ensures v.hash != u.hash {
        CleanupKeepsExactly(rows, t.expiresAt, v);
        SameHash(rows, u, v);
      }
      Dangles(cleaned, t);
    }
  }

  lemma SameHash(rows: seq<Token>, u: Token, v: Token)
    requires Distinct(rows) && u in rows && v in rows
    ensures u.hash == v.hash ==> u == v
  {}

  lemma OutlivedResolve(rows: seq<Token>, cutoff: int)
    requires NoDanglingPointer(rows) && SuccessorsOutlive(rows)
    ensures NoDanglingPointer(NotExpiredBefore(rows, cutoff))
  {
    var cleaned := NotExpiredBefore(rows, cutoff);
    forall t | t in cleaned && t.replacedBy.Some? ensures Find(cleaned, t.replacedBy.value).Some? {
      CleanupKeepsExactly(rows, cutoff, t);
      FindSound(rows, t.replacedBy.value);
      var u := Find(rows, t.replacedBy.value).value;
      CleanupKeepsExactly(rows, cutoff, u);
      FindSound(cleaned, t.replacedBy.value);
    }
  }

  /** A stored pointer leads to the next token of the chain. */
  lemma NextToken(db: Store, t: Token) returns (u: Token)
    requires Inv(db) && t in db.rows && t.replacedBy.Some?
    ensures u in db.rows && Find(db.rows, t.replacedBy.value) == Some(u) && u.hash == t.replacedBy.value
    ensures t.expiresAt <= u.expiresAt
  {
    hide Chain, InOrder, OneUserPerFamily, PointersStayInFamily;
    var i :| 0 <= i < |db.rows| && db.rows[i] == t;
    var k := ChainPosition(db.rows, i);
    var c := Chain(db.rows, t.familyId);
    assert ChainOk(c);
    ChainElements(db.rows, t.familyId, k + 1);
    u := c[k + 1];
    FindUnique(db.rows, u);
  }

  /** While the families are chains every pointer leads to a stored token, and no cleanup at any time changes
      that. */
  lemma PointersResolve(db: Store)
    requires Inv(db)
    ensures NoDanglingPointer(db.rows)
    ensures forall cutoff :: NoDanglingPointer(NotExpiredBefore(db.rows, cutoff))
  {
    hide ChainsOk, InOrder, OneUserPerFamily, PointersStayInFamily;
    forall t | t in db.rows && t.replacedBy.Some? ensures Find(db.rows, t.replacedBy.value).Some? {
      var u := NextToken(db, t);
    }
    forall t, u | t in db.rows && u in db.rows && t.replacedBy == Some(u.hash) ensures t.expiresAt <= u.expiresAt {
      var v := NextToken(db, t);
      FindUnique(db.rows, u);
    }
    CleanupDanglesExactly(db.rows);
  }

  lemma OldIsStored(db: Store, lifetime: nat, t: Token)
    requires t in db.rows
    ensures t.(revokedAt := Some(db.clock), replacedBy := Some(db.nextId)) in Rotated(db, lifetime, t.userId, t).rows
  {
    var i :| 0 <= i < |db.rows| && db.rows[i] == t;
    assert Rotated(db, lifetime, t.userId, t).rows[i] == t.(revokedAt := Some(db.clock), replacedBy := Some(db.nextId));
  }

  /** After a rotation of a chain no cleanup at any later time leaves a dangling pointer if and only if the new
      token does not expire before the one it replaces. */
  lemma ShorteningDanglesExactly(db: Store, lifetime: nat, t: Token)
    requires Inv(db) && t in db.rows && t.revokedAt.None?
    ensures (forall w: nat :: NoDanglingPointer(Run(Rotated(db, lifetime, t.userId, t), [Wait(w), Cleanup]).rows))
      <==> t.expiresAt <= db.clock + lifetime
  {
    hide Inv, Rotated, NoDanglingPointer;
    var after := Rotated(db, lifetime, t.userId, t);
    forall w: nat
      ensures Run(after, [Wait(w), Cleanup]).rows == NotExpiredBefore(after.rows, db.clock + w - RETENTION_MS)
    {
      WaitAndCleanup(after, w);
      ClockOfRotated(db, lifetime, t);
    }
    if t.expiresAt <= db.clock + lifetime {
      InvRotated(db, lifetime, t);
      PointersResolve(after);
    } else {
      var cutoff := t.expiresAt;
      LosesSuccessor(db, lifetime, t);
      var w: nat := cutoff + RETENTION_MS - db.clock;
      assert !NoDanglingPointer(Run(after, [Wait(w), Cleanup]).rows);
    }
  }

  lemma LosesSuccessor(db: Store, lifetime: nat, t: Token)
    requires Inv(db) && t in db.rows && t.revokedAt.None? && t.expiresAt > db.clock + lifetime
    ensures !NoDanglingPointer(NotExpiredBefore(Rotated(db, lifetime, t.userId, t).rows, t.expiresAt))
  {
    hide ChainsOk, Rotated, InOrder, OneUserPerFamily, PointersStayInFamily;
    var rows := Rotated(db, lifetime, t.userId, t).rows;
    var cleaned := NotExpiredBefore(rows, t.expiresAt);
    var old_ := t.(revokedAt := Some(db.clock), replacedBy := Some(db.nextId));
    var new_ := Token(db.nextId, t.userId, t.familyId, db.clock + lifetime, None, None);
    OldIsStored(db, lifetime, t);
    NewIsStored(db, lifetime, t);
    SoundRotated(db, lifetime, t);
    CleanupKeepsExactly(rows, t.expiresAt, old_);
    forall u | u in cleaned ensures u.hash != new_.hash {
      CleanupKeepsExactly(rows, t.expiresAt, u);
      FindUnique(rows, u);
      FindUnique(rows, new_);
    }
    Dangles(cleaned, old_);
  }

  lemma WaitAndCleanup(db: Store, w: nat)
    ensures Run(db, [Wait(w), Cleanup]).rows == NotExpiredBefore(db.rows, db.clock + w - RETENTION_MS)
  {
    assert [Wait(w), Cleanup][..1] == [Wait(w)] && [Wait(w)][..0] == [];
    assert Run(db, [Wait(w)]) == db.(clock := db.clock + w);
  }

  lemma ClockOfRotated(db: Store, lifetime: nat, t: Token)
    ensures Rotated(db, lifetime, t.userId, t).clock == db.clock
  {}

  /** A lifetime shortened between a login and a rotation: a cleanup at any time between the two expiries deletes
      the successor and keeps its predecessor. */
  lemma ShorterLifetimeDangles(long: nat, short: nat, w: nat)
    requires short < w - RETENTION_MS <= long
    ensures !NoDanglingPointer(Run(Store([], 0, 0),
                                   [Login(7, long), Refresh(1, true, true, short), Wait(w), Cleanup]).rows)
  {
    var events := [Login(7, long), Refresh(1, true, true, short), Wait(w), Cleanup];
    assert events[..3] == [Login(7, long), Refresh(1, true, true, short), Wait(w)];
    LoginAndRotate(long, short, w);
    var old_, new_ := Token(1, 7, 0, long, Some(0), Some(2)), Token(2, 7, 0, short, None, None);
    var rows := [old_, new_];
    var cleaned := NotExpiredBefore(rows, w - RETENTION_MS);
    CleanupKeepsExactly(rows, w - RETENTION_MS, old_);
    forall u | u in cleaned ensures u.hash != 2 { CleanupKeepsExactly(rows, w - RETENTION_MS, u); }
    Dangles(cleaned, old_);
  }

  const DAY_MS := 24 * 60 * 60 * 1000

  /** For one, 7 days shortened to 1 day, and the cleanup that runs 32 days later. */
  lemma SevenDaysToOne()
    ensures !NoDanglingPointer(
      Run(Store([], 0, 0), [Login(7, 7 * DAY_MS), Refresh(1, true, true, DAY_MS), Wait(32 * DAY_MS), Cleanup]).rows)
  {
    ShorterLifetimeDangles(7 * DAY_MS, DAY_MS, 32 * DAY_MS);
  }
}

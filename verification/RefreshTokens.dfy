/** Models the refresh-token table of src/modules/auth/auth.service.ts: rotation
    with a grace window and reuse detection, the pattern of section 5.2.2.3 of
    RFC 6819. Token hashes and family ids are fresh numbers; whether a signature
    verifies and whether the user is active are answers from outside. */
module RefreshTokens {
  import opened Wrappers

  const REFRESH_REUSE_GRACE_WINDOW_MS: int := 10_000
  const RETENTION_MS: int := 30 * 24 * 60 * 60 * 1000

  datatype Token = Token(
    hash: nat, userId: nat, familyId: nat, expiresAt: int, revokedAt: Option<int>, replacedBy: Option<nat>)

  /** The token table in insertion order, the next unused id and the clock in milliseconds. */
  datatype Store = Store(rows: seq<Token>, nextId: nat, clock: int)

  datatype AuthError = InvalidToken | ReuseDetected | SessionNotValid

  // --- The operations on the table ------------------------------------------------

  function Find(rows: seq<Token>, hash: nat): Option<Token> {
    if rows == [] then None
    else if rows[0].hash == hash then Some(rows[0])
    else Find(rows[1..], hash)
  }

  datatype Selection = ByHash(hash: nat) | ByFamily(familyId: nat) | ByUser(userId: nat) {
    predicate Selects(t: Token) {
      match this
      case ByHash(h) => t.hash == h
      case ByFamily(f) => t.familyId == f
      case ByUser(u) => t.userId == u
    }
  }

  /** `update(selection, { revokedAt: at })`, which also re-stamps tokens already revoked. */
  function Revoked(rows: seq<Token>, which: Selection, at: int): seq<Token> {
    seq(|rows|, i requires 0 <= i < |rows| =>
      if which.Selects(rows[i]) then rows[i].(revokedAt := Some(at)) else rows[i])
  }

  /** Saving a stored token as revoked and replaced. */
  function Replaced(rows: seq<Token>, hash: nat, by_: nat, at: int): seq<Token> {
    seq(|rows|, i requires 0 <= i < |rows| =>
      if rows[i].hash == hash then rows[i].(revokedAt := Some(at), replacedBy := Some(by_)) else rows[i])
  }

  function NotExpiredBefore(rows: seq<Token>, cutoff: int): seq<Token> {
    if rows == [] then []
    else NotExpiredBefore(rows[..|rows| - 1], cutoff) +
         if rows[|rows| - 1].expiresAt < cutoff then [] else [rows[|rows| - 1]]
  }

  function Issued(db: Store, lifetime: nat, userId: nat, familyId: nat): Store {
    db.(rows := db.rows + [Token(db.nextId, userId, familyId, db.clock + lifetime, None, None)],
        nextId := db.nextId + 1)
  }

  function LoggedIn(db: Store, lifetime: nat, userId: nat): Store {
    Issued(db.(nextId := db.nextId + 1), lifetime, userId, db.nextId)
  }

  function Rotated(db: Store, lifetime: nat, userId: nat, stored: Token): Store {
    var issued := Issued(db, lifetime, userId, stored.familyId);
    issued.(rows := Replaced(issued.rows, stored.hash, db.nextId, db.clock))
  }

  /** The stored token a presented one stands for: itself while live, or within the grace
      window its live successor. */
  function Standing(db: Store, presented: Token): Option<Token> {
    if presented.revokedAt.None? then Some(presented)
    else
      var successor := if presented.replacedBy.Some? then Find(db.rows, presented.replacedBy.value) else None;
      if successor.Some? && successor.value.revokedAt.None?
         && db.clock - presented.revokedAt.value <= REFRESH_REUSE_GRACE_WINDOW_MS
      then successor else None
  }

  function Refreshed(db: Store, lifetime: nat, hash: nat, verified: bool, active: bool)
    : (Store, Result<nat, AuthError>)
  {
    var presented := Find(db.rows, hash);
    if !verified || presented.None? then (db, Err(InvalidToken))
    else
      match Standing(db, presented.value)
      case None => (db.(rows := Revoked(db.rows, ByFamily(presented.value.familyId), db.clock)), Err(ReuseDetected))
      case Some(stored) =>
        if !active then (db, Err(SessionNotValid))
        else (Rotated(db, lifetime, presented.value.userId, stored), Ok(db.nextId))
  }

  // --- The service -----------------------------------------------------------------

  class AuthService {
    var rows: seq<Token>
    var nextId: nat
    var clock: int
    function State(): Store
      reads this
    {
      Store(rows, nextId, clock)
    }

    constructor (clock: int)
      ensures State() == Store([], 0, clock)
    {
      rows, nextId, this.clock := [], 0, clock;
    }

    /** The lifetime is what the configuration says at the moment. */
    method IssueRefreshToken(userId: nat, familyId: nat, lifetime: nat) returns (tokenHash: nat)
      modifies this
      ensures State() == Issued(old(State()), lifetime, userId, familyId) && tokenHash == old(nextId)
    {
      tokenHash := nextId;
      nextId := nextId + 1;
      var expiresAt := clock + lifetime;
      rows := rows + [Token(tokenHash, userId, familyId, expiresAt, None, None)];
    }

    method Login(userId: nat, lifetime: nat) returns (tokenHash: nat)
      modifies this
      ensures State() == LoggedIn(old(State()), lifetime, userId) && tokenHash == old(nextId) + 1
    {
      var familyId := nextId;
      nextId := nextId + 1;
      tokenHash := IssueRefreshToken(userId, familyId, lifetime);
    }

    method RefreshToken(hash: nat, verified: bool, active: bool, lifetime: nat) returns (r: Result<nat, AuthError>)
      modifies this
      ensures (State(), r) == Refreshed(old(State()), lifetime, hash, verified, active)
    {
      if !verified { return Err(InvalidToken); }
      var found := Find(rows, hash);
      if found.None? { return Err(InvalidToken); }
      var storedToken := found.value;
      var userId := storedToken.userId;
      if storedToken.revokedAt.Some? {
        var sinceRevoked := clock - storedToken.revokedAt.value;
        var successor := None;
        if storedToken.replacedBy.Some? {
          successor := Find(rows, storedToken.replacedBy.value);
        }
        if successor.Some? && successor.value.revokedAt.None? && sinceRevoked <= REFRESH_REUSE_GRACE_WINDOW_MS {
          storedToken := successor.value;
        } else {
          rows := Revoked(rows, ByFamily(storedToken.familyId), clock);
          return Err(ReuseDetected);
        }
      }
      if !active { return Err(SessionNotValid); }
      var newHash := IssueRefreshToken(userId, storedToken.familyId, lifetime);
      rows := Replaced(rows, storedToken.hash, newHash, clock);
      r := Ok(newHash);
    }

    method Logout(hash: nat)
      modifies this
      ensures State() == old(State()).(rows := Revoked(old(rows), ByHash(hash), clock))
    {
      rows := Revoked(rows, ByHash(hash), clock);
    }

    method CleanupExpiredRefreshTokens()
      modifies this
      ensures State() == old(State()).(rows := NotExpiredBefore(old(rows), clock - RETENTION_MS))
    {
      var cutoff := clock - RETENTION_MS;
      rows := NotExpiredBefore(rows, cutoff);
    }

    /** The token-table part of `resetPassword`. */
    method ResetPassword(userId: nat)
      modifies this
      ensures State() == old(State()).(rows := Revoked(old(rows), ByUser(userId), clock))
    {
      rows := Revoked(rows, ByUser(userId), clock);
    }
  }

  // --- Runs ---------------------------------------------------------------------------

  /** Tokens are issued with the lifetime configured at the time, which may change between events. */
  datatype Event =
    | Login(userId: nat, lifetime: nat)
    | Refresh(hash: nat, verified: bool, active: bool, lifetime: nat)
    | Logout(hash: nat)
    | Reset(userId: nat)
    | Cleanup
    | Wait(ms: nat)

  function Step(db: Store, e: Event): Store {
    match e
    case Login(u, lifetime) => LoggedIn(db, lifetime, u)
    case Refresh(h, verified, active, lifetime) => Refreshed(db, lifetime, h, verified, active).0
    case Logout(h) => db.(rows := Revoked(db.rows, ByHash(h), db.clock))
    case Reset(u) => db.(rows := Revoked(db.rows, ByUser(u), db.clock))
    case Cleanup => db.(rows := NotExpiredBefore(db.rows, db.clock - RETENTION_MS))
    case Wait(ms) => db.(clock := db.clock + ms)
  }

  function Run(db: Store, events: seq<Event>): Store {
    if events == [] then db
    else Step(Run(db, events[..|events| - 1]), events[|events| - 1])
  }

  // --- What every run keeps, whatever the lifetimes -------------------------------------

  ghost predicate Rising(rows: seq<Token>) { forall i, j :: 0 <= i < j < |rows| ==> rows[i].hash < rows[j].hash }

  ghost predicate OneUserPerFamily(rows: seq<Token>) {
    forall i, j :: 0 <= i < j < |rows| && rows[i].familyId == rows[j].familyId ==> rows[i].userId == rows[j].userId
  }

  /** A token that was replaced is revoked and points to a later one. */
  ghost predicate TokenOk(nextId: nat, t: Token) {
    t.hash < nextId && t.familyId < nextId
    && (t.replacedBy.Some? ==> t.revokedAt.Some? && t.hash < t.replacedBy.value < nextId)
  }

  /** Of two tokens of a family the earlier one was replaced, and not by one after the later. */
  predicate Succeeded(t: Token, u: Token) {
    t.familyId == u.familyId ==> t.replacedBy.Some? && t.replacedBy.value <= u.hash
  }

  ghost predicate InOrder(rows: seq<Token>) { forall i, j :: 0 <= i < j < |rows| ==> Succeeded(rows[i], rows[j]) }

  ghost predicate PointersStayInFamily(rows: seq<Token>) {
    forall t, u :: t in rows && u in rows && t.replacedBy == Some(u.hash) ==> t.familyId == u.familyId
  }

  ghost predicate TokensOk(nextId: nat, rows: seq<Token>) { forall t :: t in rows ==> TokenOk(nextId, t) }

  ghost predicate Sound(db: Store) {
    Rising(db.rows) && OneUserPerFamily(db.rows) && InOrder(db.rows) && PointersStayInFamily(db.rows)
    && TokensOk(db.nextId, db.rows)
  }

  lemma {:induction false} FindSound(rows: seq<Token>, hash: nat)
    ensures Find(rows, hash).Some? ==> Find(rows, hash).value in rows && Find(rows, hash).value.hash == hash
    ensures Find(rows, hash).None? ==> forall t :: t in rows ==> t.hash != hash
  {
    if rows != [] && rows[0].hash != hash {
      FindSound(rows[1..], hash);
      assert rows == [rows[0]] + rows[1..];
    }
  }

  lemma FindUnique(rows: seq<Token>, t: Token)
    requires Rising(rows) && t in rows
    ensures Find(rows, t.hash) == Some(t)
  {
    FindSound(rows, t.hash);
    var u := Find(rows, t.hash).value;
    var i, j :| 0 <= i < |rows| && rows[i] == t && 0 <= j < |rows| && rows[j] == u;
    assert i == j;
  }

  lemma OneUser(rows: seq<Token>, t: Token, u: Token)
    requires OneUserPerFamily(rows) && t in rows && u in rows && t.familyId == u.familyId
    ensures t.userId == u.userId
  {
    var i, j :| 0 <= i < |rows| && rows[i] == t && 0 <= j < |rows| && rows[j] == u;
    if i != j { assert rows[if i < j then i else j].userId == rows[if i < j then j else i].userId; }
  }

  /** A live token is the newest of its family. */
  ghost predicate Newest(rows: seq<Token>, t: Token) {
    t in rows && forall u :: u in rows && u.familyId == t.familyId ==> u.hash <= t.hash
  }

  lemma LiveIsNewest(db: Store, t: Token)
    requires Sound(db) && t in db.rows && t.revokedAt.None?
    ensures Newest(db.rows, t)
  {
    forall u | u in db.rows && u.familyId == t.familyId ensures u.hash <= t.hash { LaterReplaces(db, t, u); }
  }

  lemma LaterReplaces(db: Store, t: Token, u: Token)
    requires Sound(db) && t in db.rows && u in db.rows && t.familyId == u.familyId
    ensures t.hash < u.hash ==> t.revokedAt.Some?
  {
    hide OneUserPerFamily, PointersStayInFamily;
    var i, j :| 0 <= i < |db.rows| && db.rows[i] == t && 0 <= j < |db.rows| && db.rows[j] == u;
    if i < j {
      assert Succeeded(db.rows[i], db.rows[j]);
      assert TokenOk(db.nextId, t);
    }
  }

  lemma NewestIsOne(rows: seq<Token>, t: Token, u: Token)
    requires Rising(rows) && Newest(rows, t) && Newest(rows, u) && t.familyId == u.familyId
    ensures t == u
  {
    FindUnique(rows, t);
    FindUnique(rows, u);
  }

  lemma SoundRevoked(db: Store, which: Selection)
    requires Sound(db)
    ensures Sound(db.(rows := Revoked(db.rows, which, db.clock)))
  {
    var rows := Revoked(db.rows, which, db.clock);
    assert Rising(rows) && OneUserPerFamily(rows) by { hide InOrder, PointersStayInFamily, TokensOk; }
    assert InOrder(rows) by { RevokedOrder(db.rows, which, db.clock); }
    hide Rising, OneUserPerFamily, InOrder;
    forall t | t in rows ensures TokenOk(db.nextId, t) {
      var i :| 0 <= i < |rows| && rows[i] == t;
      assert db.rows[i] in db.rows;
    }
    assert PointersStayInFamily(rows) by { RevokedPointers(db.rows, which, db.clock); }
  }

  lemma RevokedOrder(rows: seq<Token>, which: Selection, at: int)
    requires InOrder(rows)
    ensures InOrder(Revoked(rows, which, at))
  {
    var after := Revoked(rows, which, at);
    forall i, j | 0 <= i < j < |after| ensures Succeeded(after[i], after[j]) { assert Succeeded(rows[i], rows[j]); }
  }

  lemma RevokedPointers(rows: seq<Token>, which: Selection, at: int)
    requires PointersStayInFamily(rows)
    ensures PointersStayInFamily(Revoked(rows, which, at))
  {
    var after := Revoked(rows, which, at);
    forall t, u | t in after && u in after && t.replacedBy == Some(u.hash) ensures t.familyId == u.familyId {
      var i, j :| 0 <= i < |after| && after[i] == t && 0 <= j < |after| && after[j] == u;
      assert rows[i] in rows && rows[j] in rows;
    }
  }

  /** A token of a family of its own. */
  lemma SoundLoggedIn(db: Store, lifetime: nat, userId: nat)
    requires Sound(db)
    ensures Sound(LoggedIn(db, lifetime, userId))
  {
    var new_ := Token(db.nextId + 1, userId, db.nextId, db.clock + lifetime, None, None);
    assert LoggedIn(db, lifetime, userId) == Store(db.rows + [new_], db.nextId + 2, db.clock);
    NewFamilyOrder(db, new_);
    NewFamilyTokens(db, new_);
  }

  lemma NewFamilyOrder(db: Store, new_: Token)
    requires Sound(db) && new_.hash > db.nextId && new_.familyId >= db.nextId
    ensures Rising(db.rows + [new_]) && OneUserPerFamily(db.rows + [new_]) && InOrder(db.rows + [new_])
  {
    hide PointersStayInFamily, TokenOk;
    forall i | 0 <= i < |db.rows| ensures db.rows[i].hash < new_.hash && db.rows[i].familyId != new_.familyId {
      OldToken(db, db.rows[i]);
    }
  }

  lemma OldToken(db: Store, t: Token)
    requires Sound(db) && t in db.rows
    ensures t.hash < db.nextId && t.familyId < db.nextId
  {
    assert TokenOk(db.nextId, t);
  }

  lemma NewFamilyTokens(db: Store, new_: Token)
    requires Sound(db) && new_.hash == db.nextId + 1 && new_.familyId == db.nextId && new_.replacedBy.None?
    ensures TokensOk(db.nextId + 2, db.rows + [new_]) && PointersStayInFamily(db.rows + [new_])
  {
    hide Rising, OneUserPerFamily, InOrder;
    var rows := db.rows + [new_];
    forall t | t in rows ensures TokenOk(db.nextId + 2, t) {
      if t in db.rows { assert TokenOk(db.nextId, t); }
    }
    forall t, u | t in rows && u in rows && t.replacedBy == Some(u.hash) ensures t.familyId == u.familyId {
      if t in db.rows { assert TokenOk(db.nextId, t); }
    }
  }

  /** Rotating a live token: the rows before it keep their pointers, it points to the new one. */
  lemma SoundRotated(db: Store, lifetime: nat, t: Token)
    requires Sound(db) && t in db.rows && t.revokedAt.None?
    ensures Sound(Rotated(db, lifetime, t.userId, t))
  {
    var after := Rotated(db, lifetime, t.userId, t);
    RotatedOrder(db, lifetime, t);
    RotatedUsers(db, lifetime, t);
    RotatedPointers(db, lifetime, t);
    RotatedTokens(db, lifetime, t);
    RotatedRises(db, lifetime, t);
  }

  lemma RotatedTokens(db: Store, lifetime: nat, t: Token)
    requires TokensOk(db.nextId, db.rows) && t in db.rows
    ensures TokensOk(db.nextId + 1, Rotated(db, lifetime, t.userId, t).rows)
  {
    var rows := Rotated(db, lifetime, t.userId, t).rows;
    forall u | u in rows ensures TokenOk(db.nextId + 1, u) {
      var i :| 0 <= i < |rows| && rows[i] == u;
      assert TokenOk(db.nextId, t);
      if i < |db.rows| { assert db.rows[i] in db.rows && TokenOk(db.nextId, db.rows[i]); }
    }
  }

  lemma RotatedRises(db: Store, lifetime: nat, t: Token)
    requires TokensOk(db.nextId, db.rows) && Rising(db.rows)
    ensures Rising(Rotated(db, lifetime, t.userId, t).rows)
  {
    forall i | 0 <= i < |db.rows| ensures db.rows[i].hash < db.nextId {
      assert db.rows[i] in db.rows && TokenOk(db.nextId, db.rows[i]);
    }
  }

  lemma RotatedOrder(db: Store, lifetime: nat, t: Token)
    requires Sound(db) && t in db.rows && t.revokedAt.None?
    ensures InOrder(Rotated(db, lifetime, t.userId, t).rows)
  {
    hide OneUserPerFamily, PointersStayInFamily, TokensOk;
    var rows := Rotated(db, lifetime, t.userId, t).rows;
    var k :| 0 <= k < |db.rows| && db.rows[k] == t;
    LiveIsNewest(db, t);
    assert t.hash < db.nextId by { TokenIsOk(db, t); }
    forall i, j | 0 <= i < j < |rows| ensures Succeeded(rows[i], rows[j]) {
      assert db.rows[i] in db.rows;
      if j < |db.rows| {
        LiveIsOnly(db, i, j, t);
        assert Succeeded(db.rows[i], db.rows[j]);
      } else if i != k && db.rows[i].familyId == t.familyId {
        assert db.rows[i].hash <= t.hash;
        assert i < k && Succeeded(db.rows[i], db.rows[k]);
      }
    }
  }

  lemma TokenIsOk(db: Store, t: Token)
    requires Sound(db) && t in db.rows
    ensures TokenOk(db.nextId, t)
  {}

  lemma LiveIsOnly(db: Store, i: nat, j: nat, t: Token)
    requires Sound(db) && i < j < |db.rows| && t in db.rows && t.revokedAt.None?
    ensures db.rows[i].familyId == db.rows[j].familyId ==> db.rows[i].hash != t.hash
  {
    hide OneUserPerFamily, PointersStayInFamily, TokensOk;
    assert Succeeded(db.rows[i], db.rows[j]);
    FindUnique(db.rows, t);
    FindUnique(db.rows, db.rows[i]);
    TokenIsOk(db, db.rows[i]);
  }

  lemma RotatedUsers(db: Store, lifetime: nat, t: Token)
    requires OneUserPerFamily(db.rows) && t in db.rows
    ensures OneUserPerFamily(Rotated(db, lifetime, t.userId, t).rows)
  {
    var rows := Rotated(db, lifetime, t.userId, t).rows;
    forall i, j | 0 <= i < j < |rows| && rows[i].familyId == rows[j].familyId ensures rows[i].userId == rows[j].userId {
      OneUser(db.rows, db.rows[i], if j < |db.rows| then db.rows[j] else t);
    }
  }

  lemma RotatedPointers(db: Store, lifetime: nat, t: Token)
    requires Sound(db) && t in db.rows
    ensures PointersStayInFamily(Rotated(db, lifetime, t.userId, t).rows)
  {
    hide OneUserPerFamily, InOrder;
    var rows := Rotated(db, lifetime, t.userId, t).rows;
    forall v, u | v in rows && u in rows && v.replacedBy == Some(u.hash) ensures v.familyId == u.familyId {
      var i, j :| 0 <= i < |rows| && rows[i] == v && 0 <= j < |rows| && rows[j] == u;
      if i < |db.rows| { assert db.rows[i] in db.rows; }
      if j < |db.rows| { assert db.rows[j] in db.rows; }
      FindUnique(db.rows, t);
      if i < |db.rows| { FindUnique(db.rows, db.rows[i]); }
    }
  }

  lemma {:induction false} KeptRows(rows: seq<Token>, cutoff: int, i: nat, j: nat) returns (k: nat, l: nat)
    requires i <= j < |NotExpiredBefore(rows, cutoff)|
    ensures k <= l < |rows| && (i < j ==> k < l)
    ensures NotExpiredBefore(rows, cutoff)[i] == rows[k] && NotExpiredBefore(rows, cutoff)[j] == rows[l]
  {
    var front := rows[..|rows| - 1];
    if j < |NotExpiredBefore(front, cutoff)| {
      k, l := KeptRows(front, cutoff, i, j);
    } else {
      l := |rows| - 1;
      if i < j {
        var k' := 0;
        k, k' := KeptRows(front, cutoff, i, i);
      } else {
        k := l;
      }
    }
  }

  lemma SoundCleanup(db: Store, cutoff: int)
    requires Sound(db)
    ensures Sound(db.(rows := NotExpiredBefore(db.rows, cutoff)))
  {
    var rows := NotExpiredBefore(db.rows, cutoff);
    forall i, j | 0 <= i < j < |rows|
      ensures rows[i].hash < rows[j].hash && Succeeded(rows[i], rows[j])
      ensures rows[i].familyId == rows[j].familyId ==> rows[i].userId == rows[j].userId
    {
      var k, l := KeptRows(db.rows, cutoff, i, j);
      assert Succeeded(db.rows[k], db.rows[l]);
    }
    forall t ensures t in rows ==> t in db.rows { CleanupKeepsExactly(db.rows, cutoff, t); }
  }

  lemma {:induction false} CleanupKeepsExactly(rows: seq<Token>, cutoff: int, t: Token)
    ensures t in NotExpiredBefore(rows, cutoff) <==> t in rows && t.expiresAt >= cutoff
  {
    if rows != [] {
      CleanupKeepsExactly(rows[..|rows| - 1], cutoff, t);
      assert rows == rows[..|rows| - 1] + [rows[|rows| - 1]];
    }
  }

  /** The token a presented one stands for is stored, live and of the same family and user. */
  lemma StandingIsLive(db: Store, presented: Token)
    requires Sound(db) && presented in db.rows
    ensures var s := Standing(db, presented);
      s.Some? ==> (s.value in db.rows && s.value.revokedAt.None?
                   && s.value.familyId == presented.familyId && s.value.userId == presented.userId)
  {
    hide InOrder, Rising;
    if presented.revokedAt.Some? && presented.replacedBy.Some? { NextSame(db, presented); }
  }

  lemma NextSame(db: Store, t: Token)
    requires Sound(db) && t in db.rows && t.replacedBy.Some?
    ensures var next := Find(db.rows, t.replacedBy.value);
      next.Some? ==> (next.value in db.rows && next.value.hash == t.replacedBy.value
                      && next.value.familyId == t.familyId && next.value.userId == t.userId)
  {
    hide InOrder, Rising;
    FindSound(db.rows, t.replacedBy.value);
    var next := Find(db.rows, t.replacedBy.value);
    if next.Some? { OneUser(db.rows, t, next.value); }
  }

  lemma SoundStep(db: Store, e: Event)
    requires Sound(db)
    ensures Sound(Step(db, e))
  {
    hide Sound, Rotated, LoggedIn;
    match e
    case Login(u, lifetime) => SoundLoggedIn(db, lifetime, u);
    case Logout(h) => SoundRevoked(db, ByHash(h));
    case Reset(u) => SoundRevoked(db, ByUser(u));
    case Cleanup => SoundCleanup(db, db.clock - RETENTION_MS);
    case Wait(ms) => SoundWait(db, ms);
    case Refresh(h, verified, active, lifetime) =>
      var found := Find(db.rows, h);
      if verified && found.Some? {
        FindSound(db.rows, h);
        StandingIsLive(db, found.value);
        var stored := Standing(db, found.value);
        if stored.None? {
          SoundRevoked(db, ByFamily(found.value.familyId));
        } else if active {
          SoundRotated(db, lifetime, stored.value);
        }
      }
  }

  lemma SoundWait(db: Store, ms: nat)
    requires Sound(db)
    ensures Sound(db.(clock := db.clock + ms))
  {}

  lemma {:induction false} SoundRun(db: Store, events: seq<Event>)
    requires Sound(db)
    ensures Sound(Run(db, events))
  {
    hide Sound, Step;
    if events != [] {
      SoundRun(db, events[..|events| - 1]);
      SoundStep(Run(db, events[..|events| - 1]), events[|events| - 1]);
    }
  }

  /** In every run, with lifetimes changing at will, the tokens of a family were replaced one after another,
      and only the newest may be live. */
  lemma SoundInEveryRun(clock: int, events: seq<Event>)
    ensures Sound(Run(Store([], 0, clock), events))
  {
    SoundRun(Store([], 0, clock), events);
  }

  /** No family ever has two live tokens. */
  lemma AtMostOneLive(db: Store, t: Token, u: Token)
    requires Sound(db) && t in db.rows && u in db.rows
    requires t.revokedAt.None? && u.revokedAt.None? && t.familyId == u.familyId
    ensures t == u
  {
    LiveIsNewest(db, t);
    LiveIsNewest(db, u);
    NewestIsOne(db.rows, t, u);
  }

  predicate InWindow(db: Store, at: int) { db.clock - at <= REFRESH_REUSE_GRACE_WINDOW_MS }

  /** The tokens a refresh accepts: the newest of a family while live, or the token that points to it, within
      the grace window after its recorded revocation. */
  ghost predicate Acceptable(db: Store, t: Token) {
    exists u :: u in db.rows && AcceptedFor(db, t, u)
  }

  ghost predicate AcceptedFor(db: Store, t: Token, u: Token) {
    Newest(db.rows, u) && u.revokedAt.None?
    && (t == u || (t.replacedBy == Some(u.hash) && t.revokedAt.Some? && InWindow(db, t.revokedAt.value)))
  }

  lemma StandingExactly(db: Store, t: Token)
    requires Sound(db) && t in db.rows
    ensures Standing(db, t).Some? <==> Acceptable(db, t)
    ensures Standing(db, t).Some? ==> AcceptedFor(db, t, Standing(db, t).value)
  {
    hide Rising, InOrder, OneUserPerFamily, Newest;
    StandingIsLive(db, t);
    var s := Standing(db, t);
    if s.Some? {
      LiveIsNewest(db, s.value);
      if t.revokedAt.Some? { FindSound(db.rows, t.replacedBy.value); }
    }
    if u :| u in db.rows && AcceptedFor(db, t, u) { FindUnique(db.rows, u); }
  }

  /** A refresh succeeds exactly for an acceptable token of an active user. The token it then issues is live and
      the newest of the family, and the one it replaces points to it. */
  lemma RefreshExactly(db: Store, t: Token, verified: bool, active: bool, lifetime: nat)
    requires Sound(db) && t in db.rows
    ensures var (after, r) := Refreshed(db, lifetime, t.hash, verified, active);
      && (r.Ok? <==> verified && active && Acceptable(db, t))
      && (r == Err(ReuseDetected) <==> verified && !Acceptable(db, t))
      && (r.Ok? ==>
            var new_ := Token(r.value, t.userId, t.familyId, db.clock + lifetime, None, None);
            Newest(after.rows, new_)
            && forall u :: u in after.rows && u.familyId == t.familyId && u != new_ ==> u.revokedAt.Some?)
  {
    hide Rotated, Revoked, Acceptable, AcceptedFor, Sound, Newest;
    FindOfStored(db, t);
    StandingExactly(db, t);
    StandingIsLive(db, t);
    if verified && active && Standing(db, t).Some? {
      var s := Standing(db, t).value;
      var after := Rotated(db, lifetime, t.userId, s);
      var new_ := Token(db.nextId, t.userId, t.familyId, db.clock + lifetime, None, None);
      SoundRotated(db, lifetime, s);
      NewIsStored(db, lifetime, s);
      LiveIsNewest(after, new_);
      forall u | u in after.rows && u.familyId == t.familyId && u != new_ ensures u.revokedAt.Some? {
        if u.revokedAt.None? { AtMostOneLive(after, u, new_); }
      }
    }
  }

  lemma FindOfStored(db: Store, t: Token)
    requires Sound(db) && t in db.rows
    ensures Find(db.rows, t.hash) == Some(t)
  {
    FindUnique(db.rows, t);
  }

  lemma NewIsStored(db: Store, lifetime: nat, s: Token)
    requires Sound(db) && s in db.rows
    ensures var new_ := Token(db.nextId, s.userId, s.familyId, db.clock + lifetime, None, None);
      new_ in Rotated(db, lifetime, s.userId, s).rows
  {
    hide Rising, InOrder, OneUserPerFamily, PointersStayInFamily;
    var rows := Rotated(db, lifetime, s.userId, s).rows;
    assert TokenOk(db.nextId, s);
    assert rows[|db.rows|] == Token(db.nextId, s.userId, s.familyId, db.clock + lifetime, None, None);
  }

  ghost predicate Dead(db: Store, f: nat) {
    f < db.nextId && forall t :: t in db.rows && t.familyId == f ==> t.revokedAt.Some?
  }

  /** Presenting a token that is not acceptable revokes its whole family. */
  lemma ReuseKillsFamily(db: Store, lifetime: nat, hash: nat, verified: bool, active: bool)
    requires Sound(db)
    requires Refreshed(db, lifetime, hash, verified, active).1 == Err(ReuseDetected)
    ensures Dead(Refreshed(db, lifetime, hash, verified, active).0, Find(db.rows, hash).value.familyId)
  {
    FindSound(db.rows, hash);
  }

  lemma DeadStep(db: Store, e: Event, f: nat)
    requires Sound(db) && Dead(db, f)
    ensures Dead(Step(db, e), f)
  {
    match e
    case Login(u, lifetime) =>
    case Logout(h) =>
    case Reset(u) =>
    case Wait(ms) =>
    case Cleanup =>
      forall t | t in NotExpiredBefore(db.rows, db.clock - RETENTION_MS) ensures t in db.rows {
        CleanupKeepsExactly(db.rows, db.clock - RETENTION_MS, t);
      }
    case Refresh(h, verified, active, lifetime) =>
      FindSound(db.rows, h);
      if verified && Find(db.rows, h).Some? { StandingIsLive(db, Find(db.rows, h).value); }
  }

  /** A family without a live token never gets one again. */
  lemma {:induction false} DeadForever(db: Store, events: seq<Event>, f: nat)
    requires Sound(db) && Dead(db, f)
    ensures Dead(Run(db, events), f)
  {
    hide Sound, Dead, Step;
    if events != [] {
      var before := Run(db, events[..|events| - 1]);
      DeadForever(db, events[..|events| - 1], f);
      SoundRun(db, events[..|events| - 1]);
      DeadStep(before, events[|events| - 1], f);
    }
  }

  // --- Signing in and out ----------------------------------------------------------------------

  /** The rows are the old ones in their places, stamped now where they were selected and otherwise unchanged. */
  ghost predicate StampedNow(db: Store, after: Store, selected: set<nat>) {
    && (after.nextId, after.clock) == (db.nextId, db.clock) && |after.rows| == |db.rows|
    && forall i :: 0 <= i < |db.rows| ==>
         after.rows[i] == if i in selected then db.rows[i].(revokedAt := Some(db.clock)) else db.rows[i]
  }

  /** A logout stamps the token with that hash, a reset all tokens of the user, and reported reuse all of the family:
      these and no other. */
  lemma RevokesExactly(db: Store, hash: nat, userId: nat, lifetime: nat, verified: bool, active: bool)
    ensures StampedNow(db, Step(db, Logout(hash)), set i: nat | i < |db.rows| && db.rows[i].hash == hash)
    ensures StampedNow(db, Step(db, Reset(userId)), set i: nat | i < |db.rows| && db.rows[i].userId == userId)
    ensures var (after, r) := Refreshed(db, lifetime, hash, verified, active);
      r == Err(ReuseDetected) ==>
        Find(db.rows, hash).Some?
        && StampedNow(db, after,
                      set i: nat | i < |db.rows| && db.rows[i].familyId == Find(db.rows, hash).value.familyId)
  {
    hide Standing, Rotated;
  }

  /** No token of the user is live. */
  ghost predicate SignedOut(db: Store, userId: nat) {
    forall t :: t in db.rows && t.userId == userId ==> t.revokedAt.Some?
  }

  lemma SignedOutStep(db: Store, e: Event, userId: nat)
    requires Sound(db) && SignedOut(db, userId) && !(e.Login? && e.userId == userId)
    ensures SignedOut(Step(db, e), userId)
  {
    hide Rising, InOrder;
    match e
    case Cleanup =>
      forall t | t in NotExpiredBefore(db.rows, db.clock - RETENTION_MS) ensures t in db.rows {
        CleanupKeepsExactly(db.rows, db.clock - RETENTION_MS, t);
      }
    case Refresh(h, verified, active, lifetime) =>
      FindSound(db.rows, h);
      if verified && Find(db.rows, h).Some? { StandingIsLive(db, Find(db.rows, h).value); }
    case _ =>
  }

  /** A reset signs its user out for good: no token of the user is live afterwards, in any run until the user logs in
      again. */
  lemma {:induction false} ResetSignsOut(db: Store, userId: nat, events: seq<Event>)
    requires Sound(db) && forall k :: 0 <= k < |events| ==> !(events[k].Login? && events[k].userId == userId)
    ensures SignedOut(Run(Step(db, Reset(userId)), events), userId)
  {
    hide Sound, SignedOut, Step;
    SoundStep(db, Reset(userId));
    if events == [] {
      ResetStamps(db, userId);
    } else {
      var front := events[..|events| - 1];
      ResetSignsOut(db, userId, front);
      SoundRun(Step(db, Reset(userId)), front);
      SignedOutStep(Run(Step(db, Reset(userId)), front), events[|events| - 1], userId);
    }
  }

  lemma ResetStamps(db: Store, userId: nat)
    ensures SignedOut(Step(db, Reset(userId)), userId)
  {}

  /** A login adds one live token to the table, of a family of its own, for the lifetime given. */
  lemma LoginExactly(db: Store, userId: nat, lifetime: nat)
    ensures var after := Step(db, Login(userId, lifetime));
      && after.clock == db.clock && after.nextId == db.nextId + 2
      && after.rows == db.rows + [Token(db.nextId + 1, userId, db.nextId, db.clock + lifetime, None, None)]
    ensures Sound(db) ==> forall t :: t in db.rows ==> t.familyId != db.nextId && t.hash < db.nextId
  {}

  /** A rotation stamps the token it stands for with the time and the hash of the new one, appends that one with the
      user and family of the old and the lifetime given, and leaves the rest. */
  lemma RotatesExactly(db: Store, hash: nat, lifetime: nat)
    requires Sound(db) && Refreshed(db, lifetime, hash, true, true).1.Ok?
    ensures var (after, r) := Refreshed(db, lifetime, hash, true, true);
      && Find(db.rows, hash).Some? && Standing(db, Find(db.rows, hash).value).Some?
      && var stored := Standing(db, Find(db.rows, hash).value).value;
      && r.value == db.nextId && after.nextId == db.nextId + 1 && after.clock == db.clock
      && |after.rows| == |db.rows| + 1
      && after.rows[|db.rows|] == Token(db.nextId, stored.userId, stored.familyId, db.clock + lifetime, None, None)
      && forall i :: 0 <= i < |db.rows| ==>
           after.rows[i] ==
             if db.rows[i] == stored then stored.(revokedAt := Some(db.clock), replacedBy := Some(db.nextId))
             else db.rows[i]
  {
    hide InOrder, Standing;
    FindSound(db.rows, hash);
    StandingIsLive(db, Find(db.rows, hash).value);
  }

  /** The window is ten seconds, and a cleanup deletes exactly the tokens that expired more than thirty days ago. */
  lemma Periods(db: Store, at: int, t: Token)
    ensures InWindow(db, at) <==> db.clock - at <= 10 * 1000
    ensures t in Step(db, Cleanup).rows <==> t in db.rows && t.expiresAt >= db.clock - 30 * 24 * 60 * 60 * 1000
  {
    CleanupKeepsExactly(db.rows, db.clock - RETENTION_MS, t);
  }

  // --- When the grace window opens -------------------------------------------------------------

  /** When each token was rotated and when it was last logged out, kept beside a run; the table itself only
      holds the last stamp. */
  datatype History = History(rotatedAt: map<nat, int>, loggedOutAt: map<nat, int>)

  datatype Traced = Traced(db: Store, history: History)

  function Recorded(db: Store, history: History, e: Event): History {
    match e
    case Logout(h) => history.(loggedOutAt := history.loggedOutAt[h := db.clock])
    case Refresh(h, verified, active, lifetime) =>
      if Refreshed(db, lifetime, h, verified, active).1.Err? then history
      else history.(rotatedAt := history.rotatedAt[Standing(db, Find(db.rows, h).value).value.hash := db.clock])
    case _ => history
  }

  function TracedRun(clock: int, events: seq<Event>): (t: Traced)
    ensures t.db == Run(Store([], 0, clock), events)
  {
    if events == [] then Traced(Store([], 0, clock), History(map[], map[]))
    else
      var t, e := TracedRun(clock, events[..|events| - 1]), events[|events| - 1];
      Traced(Step(t.db, e), Recorded(t.db, t.history, e))
  }

  /** Rotated, and the token that replaced it still live. */
  predicate LiveNext(rows: seq<Token>, t: Token) {
    t.replacedBy.Some? && Find(rows, t.replacedBy.value).Some? && Find(rows, t.replacedBy.value).value.revokedAt.None?
  }

  function LastStamp(history: History, h: nat): int
    requires h in history.rotatedAt
  {
    if h in history.loggedOutAt && history.loggedOutAt[h] > history.rotatedAt[h] then history.loggedOutAt[h]
    else history.rotatedAt[h]
  }

  ghost predicate StampOk(rows: seq<Token>, history: History, t: Token) {
    LiveNext(rows, t) ==> t.hash in history.rotatedAt && t.revokedAt == Some(LastStamp(history, t.hash))
  }

  /** A rotated token with a live successor carries the time of its rotation, or of a later logout of it. */
  ghost predicate Stamped(db: Store, history: History) {
    && (forall h :: h in history.rotatedAt ==> history.rotatedAt[h] <= db.clock)
    && (forall h :: h in history.loggedOutAt ==> history.loggedOutAt[h] <= db.clock)
    && (forall t :: t in db.rows ==> StampOk(db.rows, history, t))
  }

  lemma {:induction false} FindRevoked(rows: seq<Token>, which: Selection, at: int, h: nat)
    ensures Find(Revoked(rows, which, at), h) ==
      match Find(rows, h)
      case None => None
      case Some(t) => Some(if which.Selects(t) then t.(revokedAt := Some(at)) else t)
  {
    if rows != [] {
      FindRevoked(rows[1..], which, at, h);
      assert Revoked(rows, which, at)[1..] == Revoked(rows[1..], which, at);
    }
  }

  lemma {:induction false} FindReplaced(rows: seq<Token>, hash: nat, by_: nat, at: int, h: nat)
    ensures Find(Replaced(rows, hash, by_, at), h) ==
      match Find(rows, h)
      case None => None
      case Some(t) => Some(if t.hash == hash then t.(revokedAt := Some(at), replacedBy := Some(by_)) else t)
  {
    if rows != [] {
      FindReplaced(rows[1..], hash, by_, at, h);
      assert Replaced(rows, hash, by_, at)[1..] == Replaced(rows[1..], hash, by_, at);
    }
  }

  lemma {:induction false} FindAppend(rows: seq<Token>, u: Token, h: nat)
    requires Find(rows, h).Some?
    ensures Find(rows + [u], h) == Find(rows, h)
  {
    assert (rows + [u])[0] == rows[0];
    if rows[0].hash != h {
      FindAppend(rows[1..], u, h);
      assert (rows + [u])[1..] == rows[1..] + [u];
    }
  }

  lemma StampedRevoked(db: Store, history: History, which: Selection)
    requires Sound(db) && Stamped(db, history)
    ensures var after := db.(rows := Revoked(db.rows, which, db.clock));
      Stamped(after, if which.ByHash? then history.(loggedOutAt := history.loggedOutAt[which.hash := db.clock])
              else history)
  {
    hide Sound, Find;
    var rows := Revoked(db.rows, which, db.clock);
    var loggedOutAt := if which.ByHash? then history.loggedOutAt[which.hash := db.clock] else history.loggedOutAt;
    var logged := history.(loggedOutAt := loggedOutAt);
    forall t' | t' in rows ensures StampOk(rows, logged, t') {
      var i :| 0 <= i < |rows| && rows[i] == t';
      var t := db.rows[i];
      assert t in db.rows && StampOk(db.rows, history, t);
      if t.replacedBy.Some? {
        NextSame(db, t);
        FindRevoked(db.rows, which, db.clock, t.replacedBy.value);
      }
    }
  }

  lemma {:induction false} FindOther(rows: seq<Token>, u: Token, h: nat)
    requires u.hash != h
    ensures Find(rows + [u], h) == Find(rows, h)
  {
    if rows == [] {
      assert rows + [u] == [u] && [u][1..] == [];
    } else {
      FindOther(rows[1..], u, h);
      assert (rows + [u])[0] == rows[0] && (rows + [u])[1..] == rows[1..] + [u];
    }
  }

  lemma PointsBelow(db: Store, t: Token)
    requires Sound(db) && t in db.rows && t.replacedBy.Some?
    ensures t.replacedBy.value < db.nextId
  {}

  lemma StampedAppend(db: Store, history: History, u: Token, nextId: nat)
    requires Sound(db) && Stamped(db, history) && u.replacedBy.None? && u.hash >= db.nextId
    ensures Stamped(db.(rows := db.rows + [u], nextId := nextId), history)
  {
    hide Sound, Find;
    forall t | t in db.rows + [u] ensures StampOk(db.rows + [u], history, t) {
      if t in db.rows && t.replacedBy.Some? {
        assert StampOk(db.rows, history, t);
        PointsBelow(db, t);
        FindOther(db.rows, u, t.replacedBy.value);
      }
    }
  }

  lemma StampedRotated(db: Store, history: History, lifetime: nat, userId: nat, stored: Token)
    requires Sound(db) && Stamped(db, history) && stored in db.rows
    ensures Stamped(Rotated(db, lifetime, userId, stored),
                    history.(rotatedAt := history.rotatedAt[stored.hash := db.clock]))
  {
    hide Sound, Find;
    var new_ := Token(db.nextId, userId, stored.familyId, db.clock + lifetime, None, None);
    var mid, rows := db.rows + [new_], Rotated(db, lifetime, userId, stored).rows;
    var rotated := history.(rotatedAt := history.rotatedAt[stored.hash := db.clock]);
    forall t' | t' in rows ensures StampOk(rows, rotated, t') {
      var i :| 0 <= i < |rows| && rows[i] == t';
      var t := mid[i];
      if t.hash != stored.hash && t.replacedBy.Some? {
        assert t in db.rows && StampOk(db.rows, history, t);
        PointsBelow(db, t);
        FindOther(db.rows, new_, t.replacedBy.value);
        FindReplaced(mid, stored.hash, db.nextId, db.clock, t.replacedBy.value);
      }
    }
  }

  lemma StampedCleanup(db: Store, history: History, cutoff: int)
    requires Sound(db) && Stamped(db, history)
    ensures Stamped(db.(rows := NotExpiredBefore(db.rows, cutoff)), history)
  {
    hide InOrder, OneUserPerFamily, PointersStayInFamily;
    var rows := NotExpiredBefore(db.rows, cutoff);
    forall t | t in rows ensures StampOk(rows, history, t) {
      CleanupKeepsExactly(db.rows, cutoff, t);
      assert StampOk(db.rows, history, t);
      if LiveNext(rows, t) {
        FindSound(rows, t.replacedBy.value);
        var u := Find(rows, t.replacedBy.value).value;
        CleanupKeepsExactly(db.rows, cutoff, u);
        FindUnique(db.rows, u);
      }
    }
  }

  lemma StampedStep(db: Store, history: History, e: Event)
    requires Sound(db) && Stamped(db, history)
    ensures Stamped(Step(db, e), Recorded(db, history, e))
  {
    hide Sound, Stamped, Rotated;
    match e
    case Login(u, lifetime) =>
      StampedAppend(db, history, Token(db.nextId + 1, u, db.nextId, db.clock + lifetime, None, None), db.nextId + 2);
    case Logout(h) => StampedRevoked(db, history, ByHash(h));
    case Reset(u) => StampedRevoked(db, history, ByUser(u));
    case Cleanup => StampedCleanup(db, history, db.clock - RETENTION_MS);
    case Wait(ms) => StampedWait(db, history, ms);
    case Refresh(h, verified, active, lifetime) =>
      var found := Find(db.rows, h);
      if verified && found.Some? {
        FindSound(db.rows, h);
        StandingIsLive(db, found.value);
        var stored := Standing(db, found.value);
        if stored.None? {
          StampedRevoked(db, history, ByFamily(found.value.familyId));
        } else if active {
          StampedRotated(db, history, lifetime, found.value.userId, stored.value);
        }
      }
  }

  lemma StampedWait(db: Store, history: History, ms: nat)
    requires Stamped(db, history)
    ensures Stamped(db.(clock := db.clock + ms), history)
  {}

  lemma {:induction false} StampedInEveryRun(clock: int, events: seq<Event>)
    ensures Stamped(TracedRun(clock, events).db, TracedRun(clock, events).history)
  {
    hide Stamped, Step, Recorded;
    if events == [] {
      NothingStamped(clock);
    } else {
      var front := events[..|events| - 1];
      var t := TracedRun(clock, front);
      StampedInEveryRun(clock, front);
      SoundInEveryRun(clock, front);
      StampedStep(t.db, t.history, events[|events| - 1]);
    }
  }

  lemma NothingStamped(clock: int)
    ensures Stamped(TracedRun(clock, []).db, TracedRun(clock, []).history)
  {}

  /** In every run the token before a live one is accepted if and only if it was rotated within the window or
      logged out within the window: past the window after its rotation, logging it out, and nothing
      else, makes it acceptable again. */
  lemma LogoutReopensWindow(clock: int, events: seq<Event>, t: Token, u: Token)
    requires var db := TracedRun(clock, events).db;
      t in db.rows && u in db.rows && t.replacedBy == Some(u.hash) && u.revokedAt.None?
    ensures var (db, history) := (TracedRun(clock, events).db, TracedRun(clock, events).history);
      && t.hash in history.rotatedAt
      && (Acceptable(db, t) <==>
            InWindow(db, history.rotatedAt[t.hash])
            || (t.hash in history.loggedOutAt && InWindow(db, history.loggedOutAt[t.hash])))
  {
    hide TracedRun, Find, Acceptable, AcceptedFor;
    var (db, history) := (TracedRun(clock, events).db, TracedRun(clock, events).history);
    SoundInEveryRun(clock, events);
    StampedInEveryRun(clock, events);
    FindUnique(db.rows, u);
    assert TokenOk(db.nextId, t);
    assert StampOk(db.rows, history, t);
    StandingExactly(db, t);
  }

  /** For one, a rotated token presented any time after the window: it counts as reuse, unless it was logged
      out just before, and then it gets a new token. */
  lemma LogoutThenRefresh(lifetime: nat, w: nat)
    requires w > REFRESH_REUSE_GRACE_WINDOW_MS
    ensures var rotated := Run(Store([], 0, 0), [Login(7, lifetime), Refresh(1, true, true, lifetime), Wait(w)]);
      && Refreshed(rotated, lifetime, 1, true, true).1 == Err(ReuseDetected)
      && Refreshed(Step(rotated, Logout(1)), lifetime, 1, true, true).1.Ok?
  {
    LoginAndRotate(lifetime, lifetime, w);
    var rotated := Run(Store([], 0, 0), [Login(7, lifetime), Refresh(1, true, true, lifetime), Wait(w)]);
    assert Find(rotated.rows, 2) == Find(rotated.rows[1..], 2);
    var out := Step(rotated, Logout(1));
    assert out.rows == [Token(1, 7, 0, lifetime, Some(w), Some(2)), Token(2, 7, 0, lifetime, None, None)];
    assert Find(out.rows, 2) == Find(out.rows[1..], 2);
  }

  lemma LoginAndRotate(long: nat, short: nat, w: nat)
    ensures Run(Store([], 0, 0), [Login(7, long), Refresh(1, true, true, short), Wait(w)]) ==
      Store([Token(1, 7, 0, long, Some(0), Some(2)), Token(2, 7, 0, short, None, None)], 3, w)
  {
    var start := Store([], 0, 0);
    var first, second := [Login(7, long)], [Login(7, long), Refresh(1, true, true, short)];
    var db1 := LoggedIn(start, long, 7);
    assert db1 == Store([Token(1, 7, 0, long, None, None)], 2, 0);
    var db2 := Refreshed(db1, short, 1, true, true).0;
    assert db2.rows == [Token(1, 7, 0, long, Some(0), Some(2)), Token(2, 7, 0, short, None, None)];
    hide Refreshed, LoggedIn;
    assert first[..0] == [] && Run(start, first) == db1;
    assert second[..1] == first && Run(start, second) == db2;
    assert [Login(7, long), Refresh(1, true, true, short), Wait(w)][..2] == second;
  }
}

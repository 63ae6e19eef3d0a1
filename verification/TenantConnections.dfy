/** Models src/common/tenancy/tenant-connection-manager.service.ts: a cache of open
    connections in recency order, with the opens in flight. Opening takes time: the
    request, the completion and the failure of an open are separate steps. */
module TenantConnections {
  import opened Wrappers

  /** The connection a given open yields. */
  datatype Conn = Conn(slug: string, openId: nat)

  /** `entries` is the cache, a JavaScript Map in insertion order; an entry's key is the slug of
      its connection. `opening` holds the opens in flight, `created` all connections ever opened
      and `closed` those destroyed. */
  datatype Cache = Cache(
    entries: seq<Conn>, pending: map<string, nat>, opening: map<nat, string>, nextOpen: nat,
    created: set<Conn>, closed: set<Conn>)

  datatype Reply = Served(conn: Conn) | Waiting(openId: nat)

  // --- The operations -----------------------------------------------------------------

  function Find(entries: seq<Conn>, slug: string): Option<Conn> {
    if entries == [] then None
    else if entries[0].slug == slug then Some(entries[0])
    else Find(entries[1..], slug)
  }

  function Without(entries: seq<Conn>, slug: string): seq<Conn> {
    if entries == [] then []
    else if entries[0].slug == slug then Without(entries[1..], slug)
    else [entries[0]] + Without(entries[1..], slug)
  }

  /** `Map.set`: a key already present keeps its place. */
  function Put(entries: seq<Conn>, conn: Conn): seq<Conn> {
    if Find(entries, conn.slug).None? then entries + [conn]
    else seq(|entries|, i requires 0 <= i < |entries| => if entries[i].slug == conn.slug then conn else entries[i])
  }

  function LiveConn(cache: Cache, slug: string): Option<Conn> {
    var found := Find(cache.entries, slug);
    if found.Some? && found.value !in cache.closed then found else None
  }

  function Requested(cache: Cache, slug: string): (Cache, Reply) {
    var live := LiveConn(cache, slug);
    if live.Some? then (cache.(entries := Put(Without(cache.entries, slug), live.value)), Served(live.value))
    else if slug in cache.pending then (cache, Waiting(cache.pending[slug]))
    else (cache.(pending := cache.pending[slug := cache.nextOpen], opening := cache.opening[cache.nextOpen := slug],
                 nextOpen := cache.nextOpen + 1),
          Waiting(cache.nextOpen))
  }

  function Evicted(entries: seq<Conn>, closed: set<Conn>, max: int): (seq<Conn>, set<Conn>)
    decreases |entries|
  {
    if |entries| <= max || entries == [] || entries[0].slug == "" then (entries, closed)
    else
      WithoutShorter(entries, entries[0].slug);
      Evicted(Without(entries, entries[0].slug), closed + {entries[0]}, max)
  }

  lemma {:induction false} WithoutShorter(entries: seq<Conn>, slug: string)
    ensures |Without(entries, slug)| <= |entries|
    ensures entries != [] && entries[0].slug == slug ==> |Without(entries, slug)| < |entries|
  {
    if entries != [] { WithoutShorter(entries[1..], slug); }
  }

  function Completed(cache: Cache, max: int, openId: nat): Cache
    requires openId in cache.opening
  {
    var conn := Conn(cache.opening[openId], openId);
    var (entries, closed) := Evicted(Put(cache.entries, conn), cache.closed, max);
    Cache(entries, cache.pending - {conn.slug}, cache.opening - {openId}, cache.nextOpen, cache.created + {conn},
          closed)
  }

  function Failed(cache: Cache, openId: nat): Cache
    requires openId in cache.opening
  {
    cache.(pending := cache.pending - {cache.opening[openId]}, opening := cache.opening - {openId})
  }

  // --- The service -----------------------------------------------------------------------

  class TenantConnectionManager {
    var cache: seq<Conn>
    var pending: map<string, nat>
    var opening: map<nat, string>
    var nextOpen: nat
    var created: set<Conn>
    var closed: set<Conn>
    const maxOpenConnections: int

    function State(): Cache
      reads this
    {
      Cache(cache, pending, opening, nextOpen, created, closed)
    }

    constructor (maxOpenConnections: int)
      ensures State() == EMPTY && this.maxOpenConnections == maxOpenConnections
    {
      this.maxOpenConnections := maxOpenConnections;
      cache, pending, opening, nextOpen, created, closed := [], map[], map[], 0, {}, {};
    }

    method Touch(conn: Conn)
      modifies this`cache
      ensures cache == Put(Without(old(cache), conn.slug), conn)
    {
      cache := Without(cache, conn.slug);
      cache := Put(cache, conn);
    }

    method GetDataSourceForTenant(slug: string) returns (reply: Reply)
      modifies this
      ensures (State(), reply) == Requested(old(State()), slug)
    {
      var cached := Find(cache, slug);
      if cached.Some? && cached.value !in closed {
        FindSlug(cache, slug);
        Touch(cached.value);
        return Served(cached.value);
      }
      if slug in pending { return Waiting(pending[slug]); }
      var openId := nextOpen;
      nextOpen := nextOpen + 1;
      opening := opening[openId := slug];
      pending := pending[slug := openId];
      reply := Waiting(openId);
    }

    method EvictIfNeeded()
      modifies this`cache, this`closed
      ensures (cache, closed) == Evicted(old(cache), old(closed), maxOpenConnections)
    {
      while |cache| > maxOpenConnections && cache != []
        invariant Evicted(cache, closed, maxOpenConnections) == Evicted(old(cache), old(closed), maxOpenConnections)
        decreases |cache|
      {
        var oldestSlug := cache[0].slug;
        if oldestSlug == "" { break; }
        var conn := cache[0];
        WithoutShorter(cache, oldestSlug);
        cache := Without(cache, oldestSlug);
        if conn !in closed { closed := closed + {conn}; } else { assert closed + {conn} == closed; }
      }
    }

    /** The open resolves. */
    method CompleteOpen(openId: nat) returns (conn: Conn)
      requires openId in opening
      modifies this
      ensures State() == Completed(old(State()), maxOpenConnections, openId)
      ensures conn == Conn(old(opening)[openId], openId)
    {
      conn := Conn(opening[openId], openId);
      created := created + {conn};
      cache := Put(cache, conn);
      EvictIfNeeded();
      pending := pending - {conn.slug};
      opening := opening - {openId};
    }

    /** The open rejects. */
    method FailOpen(openId: nat)
      requires openId in opening
      modifies this
      ensures State() == Failed(old(State()), openId)
    {
      pending := pending - {opening[openId]};
      opening := opening - {openId};
    }
  }

  // --- Runs -----------------------------------------------------------------------------------

  /** `CloseOutside` stands for a cached connection destroyed by someone else. */
  datatype Event = Request(slug: string) | Complete(openId: nat) | Fail(openId: nat) | CloseOutside(slug: string)

  const EMPTY := Cache([], map[], map[], 0, {}, {})

  function Step(cache: Cache, max: int, e: Event): Cache {
    match e
    case Request(slug) => Requested(cache, slug).0
    case Complete(id) => if id in cache.opening then Completed(cache, max, id) else cache
    case Fail(id) => if id in cache.opening then Failed(cache, id) else cache
    case CloseOutside(slug) =>
      var found := Find(cache.entries, slug);
      if found.Some? then cache.(closed := cache.closed + {found.value}) else cache
  }

  function Run(max: int, events: seq<Event>): Cache {
    if events == [] then EMPTY else Step(Run(max, events[..|events| - 1]), max, events[|events| - 1])
  }

  // --- The cache as a list ------------------------------------------------------------------------

  ghost predicate Distinct(entries: seq<Conn>) {
    && (forall i, j :: 0 <= i < j < |entries| ==> entries[i].slug != entries[j].slug)
    && (forall i :: 0 <= i < |entries| ==> entries[i].slug != "")
  }

  lemma {:induction false} FindSlug(entries: seq<Conn>, slug: string)
    ensures Find(entries, slug).Some? ==> Find(entries, slug).value in entries && Find(entries, slug).value.slug == slug
    ensures Find(entries, slug).None? ==> forall c :: c in entries ==> c.slug != slug
  {
    if entries != [] {
      FindSlug(entries[1..], slug);
      assert entries == [entries[0]] + entries[1..];
    }
  }

  lemma {:induction false} WithoutAt(entries: seq<Conn>, i: nat)
    requires Distinct(entries) && i < |entries|
    ensures Without(entries, entries[i].slug) == entries[..i] + entries[i + 1..]
  {
    if i == 0 {
      WithoutAbsent(entries[1..], entries[0].slug);
      assert entries[..0] + entries[1..] == entries[1..];
    } else {
      WithoutAt(entries[1..], i - 1);
      WithoutTail(entries, entries[i].slug);
      hide Without, Distinct;
      assert entries[1..][..i - 1] == entries[1..i] && entries[1..][i..] == entries[i + 1..];
      assert [entries[0]] + (entries[1..i] + entries[i + 1..]) == entries[..i] + entries[i + 1..];
    }
  }

  lemma WithoutTail(entries: seq<Conn>, slug: string)
    requires entries != [] && entries[0].slug != slug
    ensures Without(entries, slug) == [entries[0]] + Without(entries[1..], slug)
  {}

  lemma {:induction false} WithoutAbsent(entries: seq<Conn>, slug: string)
    requires forall i :: 0 <= i < |entries| ==> entries[i].slug != slug
    ensures Without(entries, slug) == entries
  {
    if entries != [] {
      WithoutAbsent(entries[1..], slug);
      assert [entries[0]] + entries[1..] == entries;
    }
  }

  /** A hit moves the entry to the recent end and changes nothing else. */
  lemma HitMovesToEnd(entries: seq<Conn>, i: nat)
    requires Distinct(entries) && i < |entries|
    ensures Put(Without(entries, entries[i].slug), entries[i]) == entries[..i] + entries[i + 1..] + [entries[i]]
  {
    WithoutAt(entries, i);
    FindSlug(entries[..i] + entries[i + 1..], entries[i].slug);
  }

  /** How many of the oldest entries do not fit. */
  function Excess(n: nat, max: int): nat {
    if n <= max then 0 else if max < 0 then n else n - max
  }

  function SetOf(entries: seq<Conn>): set<Conn> { set c | c in entries }

  lemma ClosedStep(entries: seq<Conn>, closed: set<Conn>, n: nat)
    requires 0 < n <= |entries|
    ensures closed + {entries[0]} + SetOf(entries[1..][..n - 1]) == closed + SetOf(entries[..n])
  {
    assert entries[..n] == [entries[0]] + entries[1..][..n - 1];
  }

  /** Eviction drops exactly the oldest entries that do not fit, and destroys their connections. */
  lemma {:induction false} EvictedExactly(entries: seq<Conn>, closed: set<Conn>, max: int)
    requires Distinct(entries)
    ensures var n := Excess(|entries|, max);
      Evicted(entries, closed, max) == (entries[n..], closed + SetOf(entries[..n]))
    decreases |entries|
  {
    hide Evicted, SetOf, Distinct;
    var n := Excess(|entries|, max);
    EvictedStep(entries, closed, max);
    if n == 0 {
      assert entries[0..] == entries;
      NoneClosed(entries, closed);
    } else {
      TailIsDistinct(entries);
      EvictedExactly(entries[1..], closed + {entries[0]}, max);
      assert entries[1..][n - 1..] == entries[n..];
      ClosedStep(entries, closed, n);
    }
  }

  lemma EvictedStep(entries: seq<Conn>, closed: set<Conn>, max: int)
    requires Distinct(entries)
    ensures Evicted(entries, closed, max) ==
      if Excess(|entries|, max) == 0 then (entries, closed) else Evicted(entries[1..], closed + {entries[0]}, max)
  {
    hide Without;
    if entries != [] {
      WithoutAt(entries, 0);
      assert entries[..0] + entries[1..] == entries[1..];
    }
  }

  lemma TailIsDistinct(entries: seq<Conn>)
    requires Distinct(entries) && entries != []
    ensures Distinct(entries[1..])
  {}

  lemma NoneClosed(entries: seq<Conn>, closed: set<Conn>)
    ensures closed + SetOf(entries[..0]) == closed
  {}

  // --- What every run keeps ---------------------------------------------------------------------------

  /** The pending map and the opens in flight mirror each other: one open per tenant at most. */
  ghost predicate Mirrored(cache: Cache) {
    && (forall s :: s in cache.pending ==>
          s != "" && cache.pending[s] in cache.opening && cache.opening[cache.pending[s]] == s)
    && (forall id :: id in cache.opening ==>
          id < cache.nextOpen && cache.opening[id] in cache.pending && cache.pending[cache.opening[id]] == id)
  }

  /** Every connection ever opened is destroyed or in the cache, under its own tenant; a tenant
      with an open in flight has no live connection. */
  ghost predicate Accounted(cache: Cache) {
    && (forall c :: c in cache.created ==> c.openId < cache.nextOpen && c.openId !in cache.opening)
    && (forall c :: c in cache.created ==> c in cache.closed || c in cache.entries)
    && (forall c :: c in cache.entries ==> c in cache.created)
    && cache.closed <= cache.created
    && (forall c :: c in cache.entries && c.slug in cache.pending ==> c in cache.closed)
  }

  ghost predicate Inv(cache: Cache, max: int) {
    && Distinct(cache.entries) && Mirrored(cache) && Accounted(cache)
    && |cache.entries| <= if max < 0 then 0 else max
  }

  lemma RequestKeeps(cache: Cache, max: int, slug: string)
    requires Inv(cache, max) && slug != ""
    ensures Inv(Requested(cache, slug).0, max)
  {
    FindSlug(cache.entries, slug);
    if LiveConn(cache, slug).Some? {
      var i :| 0 <= i < |cache.entries| && cache.entries[i] == LiveConn(cache, slug).value;
      HitMovesToEnd(cache.entries, i);
      MovedIsDistinct(cache.entries, i);
    }
  }

  lemma MovedIsDistinct(entries: seq<Conn>, i: nat)
    requires Distinct(entries) && i < |entries|
    ensures Distinct(entries[..i] + entries[i + 1..] + [entries[i]])
    ensures forall c :: c in entries[..i] + entries[i + 1..] + [entries[i]] <==> c in entries
  {
    assert entries == entries[..i] + [entries[i]] + entries[i + 1..];
  }

  lemma PutKeepsDistinct(entries: seq<Conn>, conn: Conn)
    requires Distinct(entries) && conn.slug != ""
    ensures Distinct(Put(entries, conn)) && conn in Put(entries, conn)
    ensures forall c :: c in Put(entries, conn) ==> c in entries || c == conn
    ensures forall c :: c in entries && c.slug != conn.slug ==> c in Put(entries, conn)
    ensures |entries| <= |Put(entries, conn)| <= |entries| + 1
  {
    FindSlug(entries, conn.slug);
    var put := Put(entries, conn);
    if Find(entries, conn.slug).Some? {
      var i :| 0 <= i < |entries| && entries[i].slug == conn.slug;
      assert put[i] == conn;
      forall c | c in entries && c.slug != conn.slug ensures c in put {
        var k :| 0 <= k < |entries| && entries[k] == c;
        assert put[k] == c;
      }
    }
  }

  lemma CompleteMirrors(cache: Cache, max: int, openId: nat)
    requires Mirrored(cache) && openId in cache.opening
    ensures Mirrored(Completed(cache, max, openId))
  {
    hide Put, Evicted;
  }

  lemma CompleteAccounts(cache: Cache, put: seq<Conn>, n: nat, after: Cache, conn: Conn)
    requires Mirrored(cache) && Accounted(cache) && conn.openId in cache.opening
      && cache.opening[conn.openId] == conn.slug
    requires conn in put && n <= |put| && forall c :: c in put ==> c in cache.entries || c == conn
    requires forall c :: c in cache.entries && c.slug != conn.slug ==> c in put
    requires forall c :: c in put && c.slug == conn.slug ==> c == conn
    requires after == Cache(put[n..], cache.pending - {conn.slug}, cache.opening - {conn.openId}, cache.nextOpen,
                            cache.created + {conn}, cache.closed + SetOf(put[..n]))
    ensures Accounted(after)
  {
    assert put == put[..n] + put[n..];
    forall c | c in after.created ensures c in after.closed || c in after.entries {
      if c != conn && c in cache.entries && c.slug == conn.slug { assert c in cache.closed; }
    }
  }

  lemma SuffixIsDistinct(entries: seq<Conn>, n: nat)
    requires Distinct(entries) && n <= |entries|
    ensures Distinct(entries[n..])
  {}

  lemma OnePerSlug(entries: seq<Conn>, conn: Conn)
    requires Distinct(entries) && conn in entries
    ensures forall c :: c in entries && c.slug == conn.slug ==> c == conn
  {}

  lemma CompleteKeeps(cache: Cache, max: int, openId: nat)
    requires Inv(cache, max) && openId in cache.opening
    ensures Inv(Completed(cache, max, openId), max)
  {
    hide Put, Evicted, Distinct, Accounted, SetOf;
    var conn := Conn(cache.opening[openId], openId);
    var put := Put(cache.entries, conn);
    PutKeepsDistinct(cache.entries, conn);
    EvictedExactly(put, cache.closed, max);
    var n := Excess(|put|, max);
    CompleteMirrors(cache, max, openId);
    hide Mirrored;
    SuffixIsDistinct(put, n);
    OnePerSlug(put, conn);
    CompleteAccounts(cache, put, n, Completed(cache, max, openId), conn);
  }

  lemma InvStep(cache: Cache, max: int, e: Event)
    requires Inv(cache, max) && (e.Request? ==> e.slug != "")
    ensures Inv(Step(cache, max, e), max)
  {
    match e
    case Request(slug) => RequestKeeps(cache, max, slug);
    case Complete(id) => if id in cache.opening { CompleteKeeps(cache, max, id); }
    case Fail(id) =>
    case CloseOutside(slug) => FindSlug(cache.entries, slug);
  }

  ghost predicate Named(events: seq<Event>) {
    forall k :: 0 <= k < |events| && events[k].Request? ==> events[k].slug != ""
  }

  /** In every run, with opens completing and failing in any order, the cache respects its limit,
      no tenant has two opens in flight, and no open connection is lost or filed under another tenant. */
  lemma {:induction false} EveryRunKeepsCache(max: int, events: seq<Event>)
    requires Named(events)
    ensures Inv(Run(max, events), max)
  {
    if events != [] {
      EveryRunKeepsCache(max, events[..|events| - 1]);
      InvStep(Run(max, events[..|events| - 1]), max, events[|events| - 1]);
    }
  }

  /** A request is answered with an open connection of that tenant or made to wait for the one
      open of that tenant in flight. */
  lemma RequestGetsOwnTenant(cache: Cache, max: int, slug: string)
    requires Inv(cache, max)
    ensures var (after, reply) := Requested(cache, slug);
      match reply
      case Served(conn) =>
        conn.slug == slug && conn in cache.entries && conn !in cache.closed && after.opening == cache.opening
      case Waiting(id) => id in after.opening && after.opening[id] == slug
                          && (slug in cache.pending ==> after == cache)
                          && (forall other :: other in after.opening && after.opening[other] == slug ==> other == id)
  {
    FindSlug(cache.entries, slug);
  }

  /** The entry of a tenant, if its connection is open. */
  predicate IsLiveEntry(cache: Cache, slug: string, i: nat) {
    i < |cache.entries| && cache.entries[i].slug == slug && cache.entries[i] !in cache.closed
  }

  /** A request serves the open connection of the tenant when there is one, and moves its entry to the recent end;
      otherwise it joins the open in flight when there is one; and otherwise, and only then, begins a new one. */
  lemma RequestedExactly(cache: Cache, slug: string)
    requires Distinct(cache.entries)
    ensures var (after, reply) := Requested(cache, slug);
      && (forall i: nat :: IsLiveEntry(cache, slug, i) ==>
            reply == Served(cache.entries[i])
            && after == cache.(entries := cache.entries[..i] + cache.entries[i + 1..] + [cache.entries[i]]))
      && ((forall i: nat :: !IsLiveEntry(cache, slug, i)) ==>
            if slug in cache.pending then reply == Waiting(cache.pending[slug]) && after == cache
            else
              && reply == Waiting(cache.nextOpen)
              && after == cache.(pending := cache.pending[slug := cache.nextOpen],
                                 opening := cache.opening[cache.nextOpen := slug], nextOpen := cache.nextOpen + 1))
  {
    hide Put, Without;
    FindSlug(cache.entries, slug);
    forall i: nat | IsLiveEntry(cache, slug, i) ensures Find(cache.entries, slug) == Some(cache.entries[i]) {
      HitMovesToEnd(cache.entries, i);
    }
    if LiveConn(cache, slug).Some? {
      var i: nat :| i < |cache.entries| && cache.entries[i] == LiveConn(cache, slug).value;
      assert IsLiveEntry(cache, slug, i);
      HitMovesToEnd(cache.entries, i);
    }
  }

  /** The cache with the connection of a tenant in it: in the place of its old one, or at the recent end. */
  ghost predicate PutIn(entries: seq<Conn>, put: seq<Conn>, conn: Conn) {
    if exists i :: 0 <= i < |entries| && entries[i].slug == conn.slug then
      |put| == |entries|
      && forall i :: 0 <= i < |put| ==> put[i] == if entries[i].slug == conn.slug then conn else entries[i]
    else put == entries + [conn]
  }

  /** An open that completes puts its connection into the cache, drops and destroys the oldest entries over the limit,
      and ends the wait of its tenant; one that fails only ends the wait. */
  lemma FinishedExactly(cache: Cache, max: int, openId: nat)
    requires Distinct(cache.entries) && openId in cache.opening && cache.opening[openId] != ""
    ensures var slug := cache.opening[openId];
      var put := Put(cache.entries, Conn(slug, openId));
      var after := Completed(cache, max, openId);
      var n := |put| - |after.entries|;
      && PutIn(cache.entries, put, Conn(slug, openId))
      && n >= 0 && after.entries == put[n..] && after.closed == cache.closed + (set i | 0 <= i < n :: put[i])
      && |after.entries| == (if max < 0 then 0 else if max < |put| then max else |put|)
      && (after.pending, after.opening) == (cache.pending - {slug}, cache.opening - {openId})
      && after.created == cache.created + {Conn(slug, openId)} && after.nextOpen == cache.nextOpen
    ensures Failed(cache, openId)
      == cache.(pending := cache.pending - {cache.opening[openId]}, opening := cache.opening - {openId})
  {
    hide Evicted, Put, PutIn, Distinct;
    var conn := Conn(cache.opening[openId], openId);
    var put := Put(cache.entries, conn);
    PutsIn(cache.entries, conn);
    PutKeepsDistinct(cache.entries, conn);
    EvictedExactly(put, cache.closed, max);
    SetOfFirst(put, Excess(|put|, max));
  }

  lemma PutsIn(entries: seq<Conn>, conn: Conn)
    ensures PutIn(entries, Put(entries, conn), conn)
  {
    FindSlug(entries, conn.slug);
  }

  lemma SetOfFirst(entries: seq<Conn>, n: nat)
    requires n <= |entries|
    ensures SetOf(entries[..n]) == (set i | 0 <= i < n :: entries[i])
  {
    forall c | c in entries[..n] ensures c in (set i | 0 <= i < n :: entries[i]) {
      var i :| 0 <= i < n && entries[..n][i] == c;
      assert entries[i] == c;
    }
    forall i | 0 <= i < n ensures entries[i] in entries[..n] { assert entries[..n][i] == entries[i]; }
  }

  /** The connection an open yields is still open when handed out exactly when the limit is at least 1. */
  lemma CompletedIsLive(cache: Cache, max: int, openId: nat)
    requires Inv(cache, max) && openId in cache.opening
    ensures var conn := Conn(cache.opening[openId], openId);
      conn !in Completed(cache, max, openId).closed <==> max >= 1
  {
    hide Put, Evicted;
    var conn := Conn(cache.opening[openId], openId);
    var put := Put(cache.entries, conn);
    PutKeepsDistinct(cache.entries, conn);
    EvictedExactly(put, cache.closed, max);
    PutLast(cache.entries, conn, if max < 0 then 0 else max);
  }

  lemma PutLast(entries: seq<Conn>, conn: Conn, max: nat)
    requires Distinct(entries) && conn.slug != "" && |entries| <= max && conn !in entries
    ensures var put := Put(entries, conn);
      var n := Excess(|put|, max);
      conn !in put[..n] <==> max >= 1
  {
    FindSlug(entries, conn.slug);
    var put := Put(entries, conn);
    if Find(entries, conn.slug).None? {
      assert put == entries + [conn];
      if max == 0 { assert put[..1][0] == conn; } else if |entries| == max { assert put[..1] == entries[..1]; }
    }
  }

  // --- Recency -------------------------------------------------------------------------------------------

  /** A run together with the tenants used so far: served from the cache or newly opened. */
  datatype Traced = Traced(cache: Cache, uses: seq<string>)

  function UseOf(cache: Cache, e: Event): seq<string> {
    match e
    case Request(slug) => if LiveConn(cache, slug).Some? then [slug] else []
    case Complete(id) => if id in cache.opening then [cache.opening[id]] else []
    case _ => []
  }

  function TracedRun(max: int, events: seq<Event>): Traced {
    if events == [] then Traced(EMPTY, [])
    else
      var t := TracedRun(max, events[..|events| - 1]);
      var e := events[|events| - 1];
      Traced(Step(t.cache, max, e), t.uses + UseOf(t.cache, e))
  }

  /** The position of the last use of a tenant, -1 for none. */
  function LastUse(uses: seq<string>, slug: string): int {
    if uses == [] then -1
    else if uses[|uses| - 1] == slug then |uses| - 1
    else LastUse(uses[..|uses| - 1], slug)
  }

  ghost predicate ByRecency(entries: seq<Conn>, uses: seq<string>) {
    && (forall i, j :: 0 <= i < j < |entries| ==> LastUse(uses, entries[i].slug) < LastUse(uses, entries[j].slug))
    && (forall i :: 0 <= i < |entries| ==> LastUse(uses, entries[i].slug) < |uses|)
  }

  lemma UsedLast(uses: seq<string>, slug: string, other: string)
    ensures LastUse(uses + [slug], other) == if other == slug then |uses| else LastUse(uses, other)
  {
    assert (uses + [slug])[..|uses|] == uses;
  }

  lemma AppendedByRecency(entries: seq<Conn>, uses: seq<string>, conn: Conn)
    requires ByRecency(entries, uses) && forall i :: 0 <= i < |entries| ==> entries[i].slug != conn.slug
    ensures ByRecency(entries + [conn], uses + [conn.slug])
  {
    forall i | 0 <= i < |entries| + 1
      ensures LastUse(uses + [conn.slug], (entries + [conn])[i].slug)
        == if i < |entries| then LastUse(uses, entries[i].slug) else |uses|
    {
      UsedLast(uses, conn.slug, (entries + [conn])[i].slug);
    }
  }

  /** Every cached connection is open and the cache runs from the least to the most recently used. */
  ghost predicate Recent(t: Traced, max: int) {
    Inv(t.cache, max) && ByRecency(t.cache.entries, t.uses) && forall c :: c in t.cache.entries ==> c !in t.cache.closed
  }

  /** The entries an open competes with: those cached, and its own as the most recent. */
  function Contenders(cache: Cache, openId: nat): seq<Conn>
    requires openId in cache.opening
  {
    cache.entries + [Conn(cache.opening[openId], openId)]
  }

  lemma CompleteAppends(cache: Cache, max: int, openId: nat)
    requires Inv(cache, max) && openId in cache.opening && forall c :: c in cache.entries ==> c !in cache.closed
    ensures var all := Contenders(cache, openId);
      var after := Completed(cache, max, openId);
      && Distinct(all) && after.entries == all[Excess(|all|, max)..]
      && after.closed == cache.closed + SetOf(all[..Excess(|all|, max)])
  {
    var conn := Conn(cache.opening[openId], openId);
    FindSlug(cache.entries, conn.slug);
    PutKeepsDistinct(cache.entries, conn);
    EvictedExactly(Put(cache.entries, conn), cache.closed, max);
  }

  lemma RecentStep(t: Traced, max: int, e: Event)
    requires Recent(t, max) && !e.CloseOutside? && (e.Request? ==> e.slug != "")
    ensures Recent(Traced(Step(t.cache, max, e), t.uses + UseOf(t.cache, e)), max)
  {
    hide ByRecency, Distinct, Completed, Mirrored, Accounted;
    InvStep(t.cache, max, e);
    assert t.uses + [] == t.uses;
    match e
    case Request(slug) => if LiveConn(t.cache, slug).Some? { HitStaysRecent(t, max, slug); }
    case Complete(id) => if id in t.cache.opening { CompleteStaysRecent(t, max, id); }
    case Fail(id) =>
  }

  lemma HitStaysRecent(t: Traced, max: int, slug: string)
    requires Recent(t, max) && LiveConn(t.cache, slug).Some?
    ensures var after := Requested(t.cache, slug).0;
      ByRecency(after.entries, t.uses + [slug]) && forall c :: c in after.entries ==> c !in after.closed
  {
    hide ByRecency, Distinct, Mirrored, Accounted, Put, Without;
    FindSlug(t.cache.entries, slug);
    var live := LiveConn(t.cache, slug).value;
    var i :| 0 <= i < |t.cache.entries| && t.cache.entries[i] == live;
    HitMovesToEnd(t.cache.entries, i);
    MovedIsDistinct(t.cache.entries, i);
    RestByRecency(t.cache.entries, t.uses, i);
    AppendedByRecency(t.cache.entries[..i] + t.cache.entries[i + 1..], t.uses, live);
  }

  lemma RestByRecency(entries: seq<Conn>, uses: seq<string>, i: nat)
    requires Distinct(entries) && ByRecency(entries, uses) && i < |entries|
    ensures var rest := entries[..i] + entries[i + 1..];
      ByRecency(rest, uses) && forall k :: 0 <= k < |rest| ==> rest[k].slug != entries[i].slug
  {
    hide LastUse;
    var rest := entries[..i] + entries[i + 1..];
    assert forall k :: 0 <= k < |rest| ==> rest[k] == entries[if k < i then k else k + 1];
  }

  lemma CompleteStaysRecent(t: Traced, max: int, id: nat)
    requires Recent(t, max) && id in t.cache.opening
    ensures var after := Completed(t.cache, max, id);
      ByRecency(after.entries, t.uses + [t.cache.opening[id]]) && forall c :: c in after.entries ==> c !in after.closed
  {
    hide Completed, LastUse, Mirrored, Accounted, Put, Evicted, SetOf;
    CompleteAppends(t.cache, max, id);
    var all := Contenders(t.cache, id);
    assert forall i :: 0 <= i < |t.cache.entries| ==> all[i] == t.cache.entries[i];
    assert all[|all| - 1] == Conn(t.cache.opening[id], id);
    AppendedByRecency(t.cache.entries, t.uses, Conn(t.cache.opening[id], id));
    var n := Excess(|all|, max);
    forall i, j | 0 <= i < n <= j < |all| ensures all[i] != all[j] { assert all[i].slug != all[j].slug; }
    OpenAll(t.cache, id);
    SuffixByRecency(all, t.uses + [t.cache.opening[id]], n);
    NotDropped(all, n, t.cache.closed);
  }

  lemma OpenAll(cache: Cache, id: nat)
    requires Mirrored(cache) && Accounted(cache) && id in cache.opening
    requires forall c :: c in cache.entries ==> c !in cache.closed
    ensures forall i :: 0 <= i < |Contenders(cache, id)| ==> Contenders(cache, id)[i] !in cache.closed
  {}

  lemma SuffixByRecency(entries: seq<Conn>, uses: seq<string>, n: nat)
    requires ByRecency(entries, uses) && n <= |entries|
    ensures ByRecency(entries[n..], uses)
  {
    hide LastUse;
  }

  lemma NotDropped(all: seq<Conn>, n: nat, closed: set<Conn>)
    requires n <= |all| && forall i, j :: 0 <= i < n <= j < |all| ==> all[i] != all[j]
    requires forall i :: 0 <= i < |all| ==> all[i] !in closed
    ensures forall c :: c in all[n..] ==> c !in closed + SetOf(all[..n])
  {}

  ghost predicate NoOutside(events: seq<Event>) { forall k :: 0 <= k < |events| ==> !events[k].CloseOutside? }

  /** While nobody else destroys cached connections, the cache is in recency order at all times. */
  lemma {:induction false} EveryRunIsRecent(max: int, events: seq<Event>)
    requires Named(events) && NoOutside(events)
    ensures Recent(TracedRun(max, events), max) && TracedRun(max, events).cache == Run(max, events)
  {
    hide Recent, Step;
    if events == [] {
      EmptyIsRecent(max);
    } else {
      EveryRunIsRecent(max, events[..|events| - 1]);
      RecentStep(TracedRun(max, events[..|events| - 1]), max, events[|events| - 1]);
    }
  }

  lemma EmptyIsRecent(max: int)
    ensures Recent(Traced(EMPTY, []), max)
  {}

  /** Completing an open evicts the least recently used: whatever goes was used before whatever
      stays, no more goes than does not fit, and what goes is destroyed. */
  lemma EvictsLeastRecentlyUsed(t: Traced, max: int, id: nat, gone: Conn, kept: Conn)
    requires Recent(t, max) && id in t.cache.opening
    requires gone in Contenders(t.cache, id) && gone !in Completed(t.cache, max, id).entries
    requires kept in Completed(t.cache, max, id).entries
    ensures var uses := t.uses + UseOf(t.cache, Complete(id));
      LastUse(uses, gone.slug) < LastUse(uses, kept.slug)
    ensures gone in Completed(t.cache, max, id).closed && |Completed(t.cache, max, id).entries| == max
  {
    hide Completed, LastUse, Mirrored, Accounted;
    CompleteAppends(t.cache, max, id);
    var all := Contenders(t.cache, id);
    var n := Excess(|all|, max);
    assert forall i :: 0 <= i < |t.cache.entries| ==> all[i] == t.cache.entries[i];
    assert all[|all| - 1] == Conn(t.cache.opening[id], id);
    AppendedByRecency(t.cache.entries, t.uses, Conn(t.cache.opening[id], id));
    OlderBeforeNewer(all, n, t.uses + UseOf(t.cache, Complete(id)), gone, kept);
  }

  lemma OlderBeforeNewer(all: seq<Conn>, n: nat, uses: seq<string>, gone: Conn, kept: Conn)
    requires n <= |all| && ByRecency(all, uses) && gone in all && gone !in all[n..] && kept in all[n..]
    ensures gone in all[..n] && LastUse(uses, gone.slug) < LastUse(uses, kept.slug)
  {
    hide LastUse;
    assert all == all[..n] + all[n..];
    var i :| 0 <= i < n && all[..n][i] == gone;
    var j :| 0 <= j < |all[n..]| && all[n..][j] == kept;
    assert all[i] == gone && all[n + j] == kept;
  }

  /** A tenant whose cached connection was destroyed outside keeps its old place when reopened, so the
      recency order then holds exactly if that place was the most recent one. */
  lemma ReopenedKeepsPlace(cache: Cache, max: int, openId: nat, i: nat, uses: seq<string>)
    requires Inv(cache, max) && openId in cache.opening && ByRecency(cache.entries, uses)
    requires i < |cache.entries| && cache.entries[i].slug == cache.opening[openId]
    ensures var after := Completed(cache, max, openId);
      after.entries == cache.entries[i := Conn(cache.opening[openId], openId)]
      && (ByRecency(after.entries, uses + [cache.opening[openId]]) <==> i == |cache.entries| - 1)
  {
    hide ByRecency, Mirrored, Accounted, LastUse;
    var conn := Conn(cache.opening[openId], openId);
    FindSlug(cache.entries, conn.slug);
    assert Put(cache.entries, conn) == cache.entries[i := conn];
    ReplacedByRecency(cache.entries, uses, i, conn);
  }

  /** A run in which that happens: two tenants in turn, the older one destroyed from outside and reopened. The
      next eviction would take the tenant used last. */
  lemma ReopenedOutOfOrder(max: int, a: string, b: string)
    requires a != "" && b != "" && a != b && max >= 2
    ensures var events := [Request(a), Complete(0), Request(b), Complete(1), CloseOutside(a), Request(a), Complete(2)];
      var t := TracedRun(max, events);
      && Inv(t.cache, max) && t.cache == Run(max, events)
      && t.cache.entries == [Conn(a, 2), Conn(b, 1)] && t.uses == [a, b, a]
      && !ByRecency(t.cache.entries, t.uses)
  {
    hide ByRecency, Inv, Step, UseOf, TracedRun, Run, Put, Find;
    var events := [Request(a), Complete(0), Request(b), Complete(1), CloseOutside(a), Request(a), Complete(2)];
    var t4 := TwoTenants(max, events, a, b);
    var t5 := Traced(t4.cache.(closed := {Conn(a, 0)}), [a, b]);
    var t6 := Traced(t5.cache.(pending := map[a := 2], opening := map[2 := a], nextOpen := 3), [a, b]);
    var t7 :=
      Traced(Cache([Conn(a, 2), Conn(b, 1)], map[], map[], 3, {Conn(a, 0), Conn(b, 1), Conn(a, 2)}, {Conn(a, 0)}),
             [a, b, a]);
    ClosedFirst(t4.cache, max);
    Follows(max, events, 4, t4, t5);
    PutFirst(a, b);
    NewRequest(t5.cache, max, a);
    Follows(max, events, 5, t5, t6);
    NewCompletion(t6.cache, max, 2, [Conn(a, 2), Conn(b, 1)]);
    Follows(max, events, 6, t6, t7);
    assert events[..7] == events;
    EveryRunKeepsCache(max, events);
    LaterFirst(a, b);
  }

  lemma PutFirst(a: string, b: string)
    requires a != b
    ensures Put([Conn(a, 0), Conn(b, 1)], Conn(a, 2)) == [Conn(a, 2), Conn(b, 1)]
    ensures Find([Conn(a, 0), Conn(b, 1)], a) == Some(Conn(a, 0))
  {}

  lemma PutSecond(a: string, b: string)
    requires a != b
    ensures Put([Conn(a, 0)], Conn(b, 1)) == [Conn(a, 0), Conn(b, 1)]
    ensures Find([Conn(a, 0)], b) == None && Find([], a) == None && Put([], Conn(a, 0)) == [Conn(a, 0)]
  {
    FindSlug([Conn(a, 0)], b);
  }

  lemma TwoTenants(max: int, events: seq<Event>, a: string, b: string) returns (t: Traced)
    requires a != b && max >= 2 && |events| >= 4
    requires events[0] == Request(a) && events[1] == Complete(0) && events[2] == Request(b) && events[3] == Complete(1)
    ensures t == Traced(Cache([Conn(a, 0), Conn(b, 1)], map[], map[], 2, {Conn(a, 0), Conn(b, 1)}, {}), [a, b])
    ensures TracedRun(max, events[..4]) == t && Run(max, events[..4]) == t.cache
  {
    hide Step, UseOf, TracedRun, Run, Put, Find;
    var t1 := Traced(Cache([], map[a := 0], map[0 := a], 1, {}, {}), []);
    var t2 := Traced(Cache([Conn(a, 0)], map[], map[], 1, {Conn(a, 0)}, {}), [a]);
    var t3 := Traced(Cache([Conn(a, 0)], map[b := 1], map[1 := b], 2, {Conn(a, 0)}, {}), [a]);
    t := Traced(Cache([Conn(a, 0), Conn(b, 1)], map[], map[], 2, {Conn(a, 0), Conn(b, 1)}, {}), [a, b]);
    PutSecond(a, b);
    NothingUsed(max);
    assert events[..0] == [];
    NewRequest(EMPTY, max, a);
    Follows(max, events, 0, Traced(EMPTY, []), t1);
    NewCompletion(t1.cache, max, 0, [Conn(a, 0)]);
    Follows(max, events, 1, t1, t2);
    NewRequest(t2.cache, max, b);
    Follows(max, events, 2, t2, t3);
    NewCompletion(t3.cache, max, 1, [Conn(a, 0), Conn(b, 1)]);
    Follows(max, events, 3, t3, t);
  }

  lemma NothingUsed(max: int)
    ensures TracedRun(max, []) == Traced(EMPTY, []) && Run(max, []) == EMPTY
  {}

  lemma Follows(max: int, events: seq<Event>, n: nat, before: Traced, after: Traced)
    requires n < |events| && TracedRun(max, events[..n]) == before && Run(max, events[..n]) == before.cache
    requires after == Traced(Step(before.cache, max, events[n]), before.uses + UseOf(before.cache, events[n]))
    ensures TracedRun(max, events[..n + 1]) == after && Run(max, events[..n + 1]) == after.cache
  {
    hide Step, UseOf;
    assert events[..n + 1][..n] == events[..n];
  }

  lemma NewRequest(cache: Cache, max: int, slug: string)
    requires LiveConn(cache, slug).None? && slug !in cache.pending
    ensures Step(cache, max, Request(slug)) ==
      cache.(pending := cache.pending[slug := cache.nextOpen], opening := cache.opening[cache.nextOpen := slug],
             nextOpen := cache.nextOpen + 1)
    ensures UseOf(cache, Request(slug)) == []
  {}

  lemma NewCompletion(cache: Cache, max: int, id: nat, entries: seq<Conn>)
    requires id in cache.opening && Put(cache.entries, Conn(cache.opening[id], id)) == entries && |entries| <= max
    ensures Step(cache, max, Complete(id)) ==
      Cache(entries, cache.pending - {cache.opening[id]}, cache.opening - {id}, cache.nextOpen,
            cache.created + {Conn(cache.opening[id], id)}, cache.closed)
    ensures UseOf(cache, Complete(id)) == [cache.opening[id]]
  {}

  lemma ClosedFirst(cache: Cache, max: int)
    requires cache.entries != []
    ensures Step(cache, max, CloseOutside(cache.entries[0].slug)) == cache.(closed := cache.closed + {cache.entries[0]})
    ensures UseOf(cache, CloseOutside(cache.entries[0].slug)) == []
  {}

  lemma LaterFirst(a: string, b: string)
    requires a != b
    ensures !ByRecency([Conn(a, 2), Conn(b, 1)], [a, b, a])
  {
    var entries, uses := [Conn(a, 2), Conn(b, 1)], [a, b, a];
    UsedLast([a, b], a, a);
    UsedLast([a, b], a, b);
    UsedLast([a], b, b);
    assert [a, b] + [a] == uses && [a] + [b] == [a, b];
    assert LastUse(uses, entries[0].slug) == 2 && LastUse(uses, entries[1].slug) == 1;
  }

  lemma ReplacedByRecency(entries: seq<Conn>, uses: seq<string>, i: nat, conn: Conn)
    requires Distinct(entries) && ByRecency(entries, uses) && i < |entries| && entries[i].slug == conn.slug
    ensures ByRecency(entries[i := conn], uses + [conn.slug]) <==> i == |entries| - 1
  {
    hide LastUse;
    forall k | 0 <= k < |entries|
      ensures LastUse(uses + [conn.slug], entries[i := conn][k].slug) ==
        if k == i then |uses| else LastUse(uses, entries[k].slug)
    {
      UsedLast(uses, conn.slug, entries[k].slug);
    }
    if i < |entries| - 1 { assert LastUse(uses, entries[i + 1].slug) < |uses|; }
  }
}

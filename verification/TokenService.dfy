/**
  API token verification (internal/auth/cache.go, internal/service/token.go):
  a lookup in the database, sped up by a bounded cache with expiry.

  Here every call is one atomic step; TokenInterleaving takes the calls apart.
*/
module TokenService {
  import opened Wrappers
  import opened Text

  const MAX_TOKEN_CACHE_SIZE := 10000
  const FIVE_MINUTES: int := 300_000_000_000

  type Time = int
  type Hash = string
  type TokenId = int

  datatype Token = Token(
    id: TokenId, hash: Hash, name: string, scopes: seq<string>, rpm: int,
    expiresAt: Option<Time>, revoked: bool, lastUsed: Option<Time>)

  datatype CachedToken = CachedToken(token: Token, expiresAt: Time)

  type Items = map<Hash, CachedToken>

  // ------------------------------------------------------------- the cache

  /** time.Time.After is strict: an item still serves at its expiry instant. */
  function Lookup(items: Items, h: Hash, now: Time): Option<Token> {
    if h in items && now <= items[h].expiresAt then Some(items[h].token) else None
  }

  function Fresh(items: Items, now: Time): Items {
    map k | k in items && now <= items[k].expiresAt :: items[k]
  }

  /** What Set makes of a full cache: the expired items go, then one more if that was not enough. */
  function Shrunk(items: Items, now: Time, victim: Option<Hash>): Items {
    if |items| < MAX_TOKEN_CACHE_SIZE then items
    else Fresh(items, now) - (if victim.Some? then {victim.value} else {})
  }

  ghost predicate VictimLegal(items: Items, now: Time, victim: Option<Hash>) {
    if |items| >= MAX_TOKEN_CACHE_SIZE && |Fresh(items, now)| >= MAX_TOKEN_CACHE_SIZE
    then victim.Some? && victim.value in Fresh(items, now)
    else victim.None?
  }

  function Stored(items: Items, h: Hash, token: Token, now: Time, ttl: int, victim: Option<Hash>): Items {
    Shrunk(items, now, victim)[h := CachedToken(token, now + ttl)]
  }

  lemma FreshShrinks(items: Items, now: Time)
    ensures |Fresh(items, now)| <= |items|
  {
    var kept := Fresh(items, now);
    assert items.Keys == kept.Keys + (items.Keys - kept.Keys);
    assert |items.Keys| == |kept.Keys| + |items.Keys - kept.Keys|;
  }

  lemma ShrunkFits(items: Items, now: Time, victim: Option<Hash>)
    requires |items| <= MAX_TOKEN_CACHE_SIZE && VictimLegal(items, now, victim)
    ensures |Shrunk(items, now, victim)| < MAX_TOKEN_CACHE_SIZE
  {
    FreshShrinks(items, now);
    if |items| >= MAX_TOKEN_CACHE_SIZE && victim.Some? {
      var kept := Shrunk(items, now, victim);
      assert kept.Keys == Fresh(items, now).Keys - {victim.value};
      assert |kept| == |kept.Keys|;
    }
  }

  /** Storing keeps the cache within its bound, whichever key was evicted. */
  lemma StoredFits(items: Items, h: Hash, t: Token, now: Time, ttl: int, victim: Option<Hash>)
    requires |items| <= MAX_TOKEN_CACHE_SIZE && VictimLegal(items, now, victim)
    ensures |Stored(items, h, t, now, ttl, victim)| <= MAX_TOKEN_CACHE_SIZE
  {
    ShrunkFits(items, now, victim);
    var kept, next := Shrunk(items, now, victim), Stored(items, h, t, now, ttl, victim);
    assert next.Keys == kept.Keys + {h};
    assert |next| == |next.Keys| <= |kept.Keys| + 1;
  }

  function WithoutId(items: Items, id: TokenId): Items {
    map k | k in items && items[k].token.id != id :: items[k]
  }

  class TokenCache {
    var items: Items
    const ttl: int

    constructor (ttl: int)
      ensures items == map[]
      ensures this.ttl == if ttl <= 0 then FIVE_MINUTES else ttl
    {
      items := map[];
      this.ttl := if ttl <= 0 then FIVE_MINUTES else ttl;
    }

    method Get(h: Hash, now: Time) returns (r: Option<Token>)
      ensures r == Lookup(items, h, now)
      ensures r.Some? <==> h in items && now <= items[h].expiresAt
      ensures r.Some? ==> r.value == items[h].token
    {
      if h !in items {
        return None;
      }
      if now > items[h].expiresAt {
        return None;
      }
      return Some(items[h].token);
    }

    /** The deletion loop the sweep and a full Set share. */
    method DropExpired(now: Time)
      modifies this`items
      ensures items == Fresh(old(items), now)
      ensures forall k :: k in items <==> k in old(items) && now <= old(items)[k].expiresAt
      ensures forall k | k in items :: items[k] == old(items)[k]
    {
      var todo := items.Keys;
      while todo != {}
        invariant todo <= old(items).Keys
        invariant items == map k | k in old(items) && (k in todo || now <= old(items)[k].expiresAt) :: old(items)[k]
        decreases todo
      {
        var k :| k in todo;
        if now > items[k].expiresAt {
          items := items - {k};
        }
        todo := todo - {k};
      }
    }

    method Set(h: Hash, token: Token, now: Time) returns (ghost victim: Option<Hash>)
      modifies this`items
      ensures VictimLegal(old(items), now, victim)
      ensures items == Stored(old(items), h, token, now, ttl, victim)
      ensures h in items && items[h].token == token && items[h].expiresAt == now + ttl
      ensures forall k | k in items && k != h :: k in old(items) && items[k] == old(items)[k]
      ensures forall k | k in old(items) && k != h ::
                || k in items
                || (|old(items)| >= MAX_TOKEN_CACHE_SIZE && (now > old(items)[k].expiresAt || victim == Some(k)))
    {
      victim := None;
      if |items| >= MAX_TOKEN_CACHE_SIZE {
        DropExpired(now);
        if |items| >= MAX_TOKEN_CACHE_SIZE {
          var k :| k in items;
          items := items - {k};
          victim := Some(k);
        }
      }
      assert items == Shrunk(old(items), now, victim);
      items := items[h := CachedToken(token, now + ttl)];
    }

    method InvalidateByID(id: TokenId)
      modifies this`items
      ensures items == WithoutId(old(items), id)
      ensures forall k :: k in items <==> k in old(items) && old(items)[k].token.id != id
      ensures forall k | k in items :: items[k] == old(items)[k]
    {
      var todo := items.Keys;
      while todo != {}
        invariant todo <= old(items).Keys
        invariant items == map k | k in old(items) && (k in todo || old(items)[k].token.id != id) :: old(items)[k]
        decreases todo
      {
        var k :| k in todo;
        if items[k].token.id == id {
          items := items - {k};
        }
        todo := todo - {k};
      }
    }
  }

  // ----------------------------------------------------------- the service

  datatype Error = InvalidToken | TokenRevoked | TokenExpired | TokenNotFound | DatabaseError

  type Verdict = Result<Token, Error>

  /** The api_tokens table, keyed by its unique column token_hash. */
  type Rows = map<Hash, Token>

  datatype State = State(rows: Rows, items: Items)

  const TOKEN_PREFIX := "realm_tok_"

  predicate WellFormed(raw: string) {
    TOKEN_PREFIX <= TrimSpace(raw)
  }

  function Judge(t: Token, now: Time): Verdict {
    if t.revoked then Err(TokenRevoked)
    else if t.expiresAt.Some? && now > t.expiresAt.value then Err(TokenExpired)
    else Ok(t)
  }

  /** Verification with no cache at all: the reference the cached service is held to. */
  function VerifyUncached(rows: Rows, hash: string -> Hash, raw: string, now: Time): Verdict {
    if !WellFormed(raw) then Err(InvalidToken)
    else
      var h := hash(TrimSpace(raw));
      if h !in rows then Err(InvalidToken) else Judge(rows[h], now)
  }

  predicate UseIsStale(t: Token, now: Time) {
    t.lastUsed.None? || now - t.lastUsed.value > FIVE_MINUTES
  }

  /** The last use recorded by the debounced second write. */
  function Touched(t: Token, now: Time): Token {
    if UseIsStale(t, now) then t.(lastUsed := Some(now)) else t
  }

  datatype Event =
    | Create(token: Token)
    | Verify(raw: string, at: Time, dbUp: bool, victims: (Option<Hash>, Option<Hash>))
    | Revoke(id: TokenId, dbUp: bool)
    | MarkUsed(id: TokenId, at: Time)
    | Sweep(at: Time)

  function Reply(s: State, hash: string -> Hash, raw: string, now: Time, dbUp: bool): Verdict {
    if !WellFormed(raw) then Err(InvalidToken)
    else
      var h := hash(TrimSpace(raw));
      match Lookup(s.items, h, now)
      case Some(t) => Judge(t, now)
      case None =>
        if !dbUp then Err(DatabaseError)
        else if h !in s.rows then Err(InvalidToken)
        else
          match Judge(s.rows[h], now)
          case Ok(t) => Ok(Touched(t, now))
          case Err(e) => Err(e)
  }

  /** Whether this Verify goes to the database and finds a usable row. */
  predicate Loads(s: State, hash: string -> Hash, raw: string, now: Time, dbUp: bool) {
    && WellFormed(raw) && dbUp
    && var h := hash(TrimSpace(raw));
    Lookup(s.items, h, now).None? && h in s.rows && Judge(s.rows[h], now).Ok?
  }


  function AfterVerify(s: State, hash: string -> Hash, e: Event, ttl: int): State
    requires e.Verify?
  {
    if !Loads(s, hash, e.raw, e.at, e.dbUp) then s
    else
      var h := hash(TrimSpace(e.raw));
      var t := s.rows[h];
      var first := Stored(s.items, h, t, e.at, ttl, e.victims.0);
      if UseIsStale(t, e.at) then s.(items := Stored(first, h, Touched(t, e.at), e.at, ttl, e.victims.1))
      else s.(items := first)
  }

  ghost predicate HasId(rows: Rows, id: TokenId) {
    exists h | h in rows :: rows[h].id == id
  }

  function RevokedRows(rows: Rows, id: TokenId): Rows {
    map h | h in rows :: if rows[h].id == id then rows[h].(revoked := true) else rows[h]
  }

  function UsedRows(rows: Rows, id: TokenId, now: Time): Rows {
    map h | h in rows :: if rows[h].id == id then rows[h].(lastUsed := Some(now)) else rows[h]
  }

  ghost function Next(s: State, hash: string -> Hash, e: Event, ttl: int): State {
    match e
    case Create(t) =>
      // token_hash is unique and id is the primary key
      if t.hash in s.rows || HasId(s.rows, t.id) then s else s.(rows := s.rows[t.hash := t])
    case Verify(_, _, _, _) => AfterVerify(s, hash, e, ttl)
    case Revoke(id, dbUp) =>
      if !dbUp || !HasId(s.rows, id) then s else State(RevokedRows(s.rows, id), WithoutId(s.items, id))
    case MarkUsed(id, at) => s.(rows := UsedRows(s.rows, id, at))
    case Sweep(at) => s.(items := Fresh(s.items, at))
  }

  /** The forced evictions of a Verify happen only when sweeping did not make room. */
  ghost predicate Legal(s: State, hash: string -> Hash, e: Event, ttl: int) {
    e.Verify? && Loads(s, hash, e.raw, e.at, e.dbUp) ==>
      var h := hash(TrimSpace(e.raw));
      && VictimLegal(s.items, e.at, e.victims.0)
      && (UseIsStale(s.rows[h], e.at) ==>
            VictimLegal(Stored(s.items, h, s.rows[h], e.at, ttl, e.victims.0), e.at, e.victims.1))
  }

  /** The service's records and its cache; the hash stands for SHA-256 in hexadecimal. */
  class Service {
    const hash: string -> Hash
    const cache: TokenCache
    var rows: Rows

    ghost function Abs(): State
      reads this, cache
    {
      State(rows, cache.items)
    }

    constructor (hash: string -> Hash, cache: TokenCache)
      ensures rows == map[] && this.cache == cache && this.hash == hash
    {
      this.hash := hash;
      this.cache := cache;
      rows := map[];
    }

    method Verify(raw: string, now: Time, dbUp: bool) returns (r: Verdict, ghost victims: (Option<Hash>, Option<Hash>))
      modifies cache`items
      ensures r == Reply(old(Abs()), hash, raw, now, dbUp)
      ensures Abs() == Next(old(Abs()), hash, Event.Verify(raw, now, dbUp, victims), cache.ttl)
      ensures Legal(old(Abs()), hash, Event.Verify(raw, now, dbUp, victims), cache.ttl)
    {
      victims := (None, None);
      var rawToken := TrimSpace(raw);
      if rawToken == "" || !(TOKEN_PREFIX <= rawToken) {
        return Err(InvalidToken), victims;
      }
      var h := hash(rawToken);
      var cached := cache.Get(h, now);
      if cached.Some? {
        if cached.value.revoked {
          return Err(TokenRevoked), victims;
        }
        if cached.value.expiresAt.Some? && now > cached.value.expiresAt.value {
          return Err(TokenExpired), victims;
        }
        return Ok(cached.value), victims;
      }
      if !dbUp {
        return Err(DatabaseError), victims;
      }
      if h !in rows {
        return Err(InvalidToken), victims;
      }
      var token := rows[h];
      if token.revoked {
        return Err(TokenRevoked), victims;
      }
      if token.expiresAt.Some? && now > token.expiresAt.value {
        return Err(TokenExpired), victims;
      }
      token, victims := Remember(h, token, now);
      return Ok(token), victims;
    }

    /** The cache writes of a verified token: one, and another when its last use is out of date. */
    method Remember(h: Hash, row: Token, now: Time) returns (token: Token, ghost victims: (Option<Hash>, Option<Hash>))
      modifies cache`items
      ensures token == Touched(row, now)
      ensures VictimLegal(old(cache.items), now, victims.0)
      ensures var first := Stored(old(cache.items), h, row, now, cache.ttl, victims.0);
              if UseIsStale(row, now)
              then VictimLegal(first, now, victims.1)
                   && cache.items == Stored(first, h, token, now, cache.ttl, victims.1)
              else cache.items == first
    {
      token := row;
      ghost var v0 := cache.Set(h, token, now);
      ghost var v1 := None;
      if token.lastUsed.None? || now - token.lastUsed.value > FIVE_MINUTES {
        token := token.(lastUsed := Some(now));
        v1 := cache.Set(h, token, now);
      }
      victims := (v0, v1);
    }

    method Revoke(id: TokenId, dbUp: bool) returns (r: Result<(), Error>)
      modifies this`rows, cache`items
      ensures Abs() == Next(old(Abs()), hash, Event.Revoke(id, dbUp), cache.ttl)
      ensures r.Ok? <==> dbUp && exists h | h in old(rows) :: old(rows)[h].id == id
      ensures rows.Keys == old(rows).Keys
      ensures forall h | h in rows ::
                rows[h] == if dbUp && old(rows)[h].id == id then old(rows)[h].(revoked := true) else old(rows)[h]
      ensures r.Ok? ==> forall h | h in cache.items :: cache.items[h].token.id != id
    {
      if !dbUp {
        return Err(DatabaseError);
      }
      var affected := set h | h in rows && rows[h].id == id;
      assert affected != {} <==> HasId(rows, id) by {
        if HasId(rows, id) {
          var h :| h in rows && rows[h].id == id;
          assert h in affected;
        }
      }
      rows := map h | h in rows :: if h in affected then rows[h].(revoked := true) else rows[h];
      assert rows == RevokedRows(old(rows), id);
      if affected == {} {
        assert rows == old(rows);
        return Err(TokenNotFound);
      }
      cache.InvalidateByID(id);
      return Ok(());
    }
  }

  // ------------------------------------------------- the cache is transparent

  /** Equal in every column but the last use. */
  predicate SameToken(t: Token, u: Token) {
    t == u.(lastUsed := t.lastUsed)
  }

  predicate SameVerdict(v: Verdict, w: Verdict) {
    match (v, w)
    case (Ok(t), Ok(u)) => SameToken(t, u)
    case (Err(e), Err(f)) => e == f
    case _ => false
  }

  ghost predicate TableOk(rows: Rows) {
    && (forall h | h in rows :: rows[h].hash == h)
    && (forall h, g | h in rows && g in rows && rows[h].id == rows[g].id :: h == g)
  }

  /** Every cached token is a live, unrevoked row as the table has it now. */
  ghost predicate Coherent(s: State) {
    && TableOk(s.rows)
    && forall h | h in s.items :: h in s.rows && SameToken(s.items[h].token, s.rows[h]) && !s.rows[h].revoked
  }

  lemma StoredCoherent(s: State, h: Hash, t: Token, now: Time, ttl: int, victim: Option<Hash>)
    requires Coherent(s) && h in s.rows && SameToken(t, s.rows[h]) && !s.rows[h].revoked
    ensures Coherent(s.(items := Stored(s.items, h, t, now, ttl, victim)))
  {}

  lemma VerifyCoherent(s: State, hash: string -> Hash, e: Event, ttl: int)
    requires Coherent(s) && e.Verify?
    ensures Coherent(AfterVerify(s, hash, e, ttl))
  {
    if Loads(s, hash, e.raw, e.at, e.dbUp) {
      var h := hash(TrimSpace(e.raw));
      StoredCoherent(s, h, s.rows[h], e.at, ttl, e.victims.0);
      var first := s.(items := Stored(s.items, h, s.rows[h], e.at, ttl, e.victims.0));
      StoredCoherent(first, h, Touched(s.rows[h], e.at), e.at, ttl, e.victims.1);
    }
  }

  /** An update that keeps hashes and ids keeps both unique. */
  lemma UpdateTableOk(rows: Rows, rows': Rows)
    requires TableOk(rows) && rows'.Keys == rows.Keys
    requires forall h | h in rows :: rows'[h].id == rows[h].id && rows'[h].hash == rows[h].hash
    ensures TableOk(rows')
  {
    forall h, g | h in rows' && g in rows' && rows'[h].id == rows'[g].id
      ensures h == g
    {
      assert rows[h].id == rows[g].id;
    }
  }

  lemma RevokeCoherent(s: State, id: TokenId)
    requires Coherent(s)
    ensures Coherent(State(RevokedRows(s.rows, id), WithoutId(s.items, id)))
  {
    UpdateTableOk(s.rows, RevokedRows(s.rows, id));
  }

  lemma NextCoherent(s: State, hash: string -> Hash, e: Event, ttl: int)
    requires Coherent(s)
    ensures Coherent(Next(s, hash, e, ttl))
  {
    match e
    case Create(t) =>
    case Verify(_, _, _, _) => VerifyCoherent(s, hash, e, ttl);
    case Revoke(id, dbUp) => RevokeCoherent(s, id);
    case MarkUsed(id, at) => UpdateTableOk(s.rows, UsedRows(s.rows, id, at));
    case Sweep(at) =>
  }

  ghost function Run(s: State, hash: string -> Hash, es: seq<Event>, ttl: int): State
    decreases |es|
  {
    if es == [] then s else Run(Next(s, hash, es[0], ttl), hash, es[1..], ttl)
  }

  lemma {:induction false} RunCoherent(s: State, hash: string -> Hash, es: seq<Event>, ttl: int)
    requires Coherent(s)
    ensures Coherent(Run(s, hash, es, ttl))
    decreases |es|
  {
    if es != [] {
      NextCoherent(s, hash, es[0], ttl);
      RunCoherent(Next(s, hash, es[0], ttl), hash, es[1..], ttl);
    }
  }

  /**
    In every reachable state, whatever the cache expired, swept or evicted, Verify
    gives the verdict of a Verify that has no cache. With the database down it
    gives that verdict too, or reports the database error.
  */
  lemma CacheTransparent(hash: string -> Hash, es: seq<Event>, ttl: int, raw: string, now: Time, dbUp: bool)
    ensures var s := Run(State(map[], map[]), hash, es, ttl);
            var r := Reply(s, hash, raw, now, dbUp);
            || SameVerdict(r, VerifyUncached(s.rows, hash, raw, now))
            || (!dbUp && r == Err(DatabaseError))
  {
    RunCoherent(State(map[], map[]), hash, es, ttl);
  }

  /** The trimmed text is a token of that row. */
  predicate Presents(rows: Rows, hash: string -> Hash, raw: string) {
    "realm_tok_" <= TrimSpace(raw) && hash(TrimSpace(raw)) in rows
  }

  /**
    What Verify answers in any reachable state, in the columns of the row as the table has
    it now. With the database down an accepted token still deserves it.
  */
  lemma VerifyOutcome(hash: string -> Hash, es: seq<Event>, ttl: int, raw: string, now: Time, dbUp: bool)
    ensures var s := Run(State(map[], map[]), hash, es, ttl);
            var r, h := Reply(s, hash, raw, now, dbUp), hash(TrimSpace(raw));
            && (r.Ok? ==>
                  && Presents(s.rows, hash, raw) && !s.rows[h].revoked
                  && (s.rows[h].expiresAt.None? || now <= s.rows[h].expiresAt.value)
                  && r.value == s.rows[h].(lastUsed := r.value.lastUsed))
            && (dbUp ==>
                  && (r.Ok? <==>
                        && Presents(s.rows, hash, raw) && !s.rows[h].revoked
                        && (s.rows[h].expiresAt.None? || now <= s.rows[h].expiresAt.value))
                  && (r == Err(TokenRevoked) <==> Presents(s.rows, hash, raw) && s.rows[h].revoked)
                  && (r == Err(TokenExpired) <==>
                        && Presents(s.rows, hash, raw) && !s.rows[h].revoked
                        && s.rows[h].expiresAt.Some? && now > s.rows[h].expiresAt.value)
                  && (r == Err(InvalidToken) <==> !Presents(s.rows, hash, raw)))
  {
    RunCoherent(State(map[], map[]), hash, es, ttl);
  }

  /** A token that was not in the cache comes back with a use recorded within the last five minutes. */
  lemma UseIsRecorded(s: State, hash: string -> Hash, raw: string, now: Time)
    requires var h := hash(TrimSpace(raw)); h in s.items ==> now > s.items[h].expiresAt
    requires Reply(s, hash, raw, now, true).Ok?
    ensures var t, row := Reply(s, hash, raw, now, true).value, s.rows[hash(TrimSpace(raw))];
            t.lastUsed == Some(now)
            || (t == row && row.lastUsed.Some? && now - row.lastUsed.value <= 5 * 60 * 1_000_000_000)
  {}

  ghost predicate RevokedForGood(s: State, id: TokenId) {
    exists h | h in s.rows :: s.rows[h].id == id && s.rows[h].revoked
  }

  lemma {:induction false} StaysRevoked(s: State, hash: string -> Hash, es: seq<Event>, ttl: int, id: TokenId)
    requires RevokedForGood(s, id)
    ensures RevokedForGood(Run(s, hash, es, ttl), id)
    decreases |es|
  {
    if es != [] {
      var s' := Next(s, hash, es[0], ttl);
      var h :| h in s.rows && s.rows[h].id == id && s.rows[h].revoked;
      assert h in s'.rows && s'.rows[h].id == id && s'.rows[h].revoked;
      StaysRevoked(s', hash, es[1..], ttl, id);
    }
  }

  /** Once Revoke(id) has returned without error, no later Verify accepts a token with that id. */
  lemma RevokeIsFinal(hash: string -> Hash, before: seq<Event>, id: TokenId, after: seq<Event>, ttl: int,
                      raw: string, now: Time, dbUp: bool)
    requires HasId(Run(State(map[], map[]), hash, before, ttl).rows, id)
    ensures var s := Run(State(map[], map[]), hash, before, ttl);
            var s' := Run(Next(s, hash, Revoke(id, true), ttl), hash, after, ttl);
            var r := Reply(s', hash, raw, now, dbUp);
            r.Ok? ==> r.value.id != id
  {
    var s := Run(State(map[], map[]), hash, before, ttl);
    RunCoherent(State(map[], map[]), hash, before, ttl);
    var s1 := Next(s, hash, Revoke(id, true), ttl);
    var h :| h in s.rows && s.rows[h].id == id;
    assert s1.rows[h].revoked && s1.rows[h].id == id;
    NextCoherent(s, hash, Revoke(id, true), ttl);
    StaysRevoked(s1, hash, after, ttl, id);
    RunCoherent(s1, hash, after, ttl);
  }

  ghost predicate LegalRun(s: State, hash: string -> Hash, es: seq<Event>, ttl: int)
    decreases |es|
  {
    es == [] || (Legal(s, hash, es[0], ttl) && LegalRun(Next(s, hash, es[0], ttl), hash, es[1..], ttl))
  }

  lemma NextFits(s: State, hash: string -> Hash, e: Event, ttl: int)
    requires Legal(s, hash, e, ttl) && |s.items| <= MAX_TOKEN_CACHE_SIZE
    ensures |Next(s, hash, e, ttl).items| <= MAX_TOKEN_CACHE_SIZE
  {
    match e
    case Create(_) =>
    case Verify(raw, now, dbUp, victims) =>
      if Loads(s, hash, raw, now, dbUp) {
        var h := hash(TrimSpace(raw));
        var t := s.rows[h];
        StoredFits(s.items, h, t, now, ttl, victims.0);
        if UseIsStale(t, now) {
          StoredFits(Stored(s.items, h, t, now, ttl, victims.0), h, Touched(t, now), now, ttl, victims.1);
        }
      }
    case Revoke(id, _) =>
      var kept := WithoutId(s.items, id);
      assert s.items.Keys == kept.Keys + (s.items.Keys - kept.Keys);
      assert |s.items.Keys| == |kept.Keys| + |s.items.Keys - kept.Keys|;
    case MarkUsed(_, _) =>
    case Sweep(at) => FreshShrinks(s.items, at);
  }

  /** No run takes the cache over its bound. */
  lemma {:induction false} CacheBounded(s: State, hash: string -> Hash, es: seq<Event>, ttl: int)
    requires LegalRun(s, hash, es, ttl) && |s.items| <= MAX_TOKEN_CACHE_SIZE
    ensures |Run(s, hash, es, ttl).items| <= MAX_TOKEN_CACHE_SIZE
    decreases |es|
  {
    if es != [] {
      NextFits(s, hash, es[0], ttl);
      CacheBounded(Next(s, hash, es[0], ttl), hash, es[1..], ttl);
    }
  }
}

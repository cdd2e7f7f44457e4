/**
  Verify and Revoke taken apart into their atomic steps (internal/service/token.go),
  running in any interleaving with each other, with the cache's sweeps and
  evictions, and with the command line tool, which revokes rows but has no cache.
*/
module TokenInterleaving {
  import opened Wrappers
  import opened TokenService

  type ThreadId = int

  datatype Pc =
    | Missed(h: Hash)                                // Verify, after a cache miss
    | Loaded(h: Hash, token: Token, readAt: Time)    // Verify, after reading a usable row
    | SetOnce(h: Hash, token: Token, readAt: Time)   // Verify, between its two cache writes
    | RowRevoked(id: TokenId)                        // Revoke, before invalidating the cache

  /** revokedAt records when each revoked row was first revoked. */
  datatype System = System(
    clock: Time, rows: Rows, revokedAt: map<Hash, Time>, items: Items, threads: map<ThreadId, Pc>)

  datatype Step =
    | Tick(d: nat)
    | InsertRow(token: Token)
    | ReadCache(t: ThreadId, h: Hash)
    | ReadRow(t: ThreadId)
    | FirstSet(t: ThreadId)
    | SecondSet(t: ThreadId)
    | RevokeRow(t: ThreadId, id: TokenId)
    | Invalidate(t: ThreadId)
    | CliRevoke(id: TokenId)
    | MarkRowUsed(id: TokenId)
    | Drop(keys: set<Hash>)                          // any sweep or eviction

  const INITIAL := System(0, map[], map[], map[], map[])

  ghost predicate Enabled(s: System, e: Step) {
    match e
    case Tick(_) => true
    case InsertRow(t) => t.hash !in s.rows && !HasId(s.rows, t.id) && !t.revoked
    case ReadCache(t, _) => t !in s.threads
    case ReadRow(t) => t in s.threads && s.threads[t].Missed?
    case FirstSet(t) => t in s.threads && s.threads[t].Loaded?
    case SecondSet(t) => t in s.threads && s.threads[t].SetOnce?
    case RevokeRow(t, id) => t !in s.threads && HasId(s.rows, id)
    case Invalidate(t) => t in s.threads && s.threads[t].RowRevoked?
    case CliRevoke(_) => true
    case MarkRowUsed(_) => true
    case Drop(_) => true
  }

  function RevocationTimes(s: System, id: TokenId): map<Hash, Time> {
    map h | h in s.rows && (h in s.revokedAt || s.rows[h].id == id)
      :: if h in s.revokedAt then s.revokedAt[h] else s.clock
  }

  function WithRowRevoked(s: System, id: TokenId): System {
    s.(rows := RevokedRows(s.rows, id), revokedAt := RevocationTimes(s, id))
  }

  function Cached(items: Items, h: Hash, token: Token, now: Time, ttl: nat): Items {
    items[h := CachedToken(token, now + ttl)]
  }

  ghost function Apply(s: System, e: Step, ttl: nat): System
    requires Enabled(s, e)
  {
    match e
    case Tick(d) => s.(clock := s.clock + d)
    case InsertRow(t) => s.(rows := s.rows[t.hash := t])
    case ReadCache(t, h) =>
      if Lookup(s.items, h, s.clock).Some? then s else s.(threads := s.threads[t := Missed(h)])
    case ReadRow(t) =>
      var h := s.threads[t].h;
      if h in s.rows && Judge(s.rows[h], s.clock).Ok?
      then s.(threads := s.threads[t := Loaded(h, s.rows[h], s.clock)])
      else s.(threads := s.threads - {t})
    case FirstSet(t) =>
      var pc := s.threads[t];
      var s' := s.(items := Cached(s.items, pc.h, pc.token, s.clock, ttl));
      if UseIsStale(pc.token, s.clock)
      then s'.(threads := s.threads[t := SetOnce(pc.h, Touched(pc.token, s.clock), pc.readAt)])
      else s'.(threads := s.threads - {t})
    case SecondSet(t) =>
      var pc := s.threads[t];
      s.(items := Cached(s.items, pc.h, pc.token, s.clock, ttl), threads := s.threads - {t})
    case RevokeRow(t, id) => WithRowRevoked(s, id).(threads := s.threads[t := RowRevoked(id)])
    case Invalidate(t) => s.(items := WithoutId(s.items, s.threads[t].id), threads := s.threads - {t})
    case CliRevoke(id) => WithRowRevoked(s, id)
    case MarkRowUsed(id) => s.(rows := UsedRows(s.rows, id, s.clock))
    case Drop(keys) => s.(items := s.items - keys)
  }

  /** The token hash this step lets in, if it is the last step of an accepting Verify. */
  ghost function Accepts(s: System, e: Step): Option<Hash>
    requires Enabled(s, e)
  {
    match e
    case ReadCache(_, h) =>
      (match Lookup(s.items, h, s.clock)
       case Some(t) => if Judge(t, s.clock).Ok? then Some(h) else None
       case None => None)
    case FirstSet(t) => if UseIsStale(s.threads[t].token, s.clock) then None else Some(s.threads[t].h)
    case SecondSet(t) => Some(s.threads[t].h)
    case _ => None
  }

  /** Each cache write comes at most d after the database read of its Verify. */
  ghost predicate Prompt(s: System, e: Step, d: nat)
    requires Enabled(s, e)
  {
    match e
    case FirstSet(t) => s.clock <= s.threads[t].readAt + d
    case SecondSet(t) => s.clock <= s.threads[t].readAt + d
    case _ => true
  }

  ghost predicate Runs(s: System, es: seq<Step>, ttl: nat, d: nat)
    decreases |es|
  {
    es == [] || (Enabled(s, es[0]) && Prompt(s, es[0], d) && Runs(Apply(s, es[0], ttl), es[1..], ttl, d))
  }

  ghost function Reach(s: System, es: seq<Step>, ttl: nat, d: nat): System
    requires Runs(s, es, ttl, d)
    decreases |es|
  {
    if es == [] then s else Reach(Apply(s, es[0], ttl), es[1..], ttl, d)
  }

  // ------------------------------------------------------------- the bound

  /** The last instant at which row h was not revoked in the database. */
  function LastLive(s: System, h: Hash): Time {
    if h in s.revokedAt then s.revokedAt[h] else s.clock
  }

  /** A verified token's snapshot, no newer than the row's last unrevoked instant. */
  ghost predicate ThreadOk(s: System, pc: Pc) {
    match pc
    case Missed(_) => true
    case Loaded(h, t, readAt) => h in s.rows && t.id == s.rows[h].id && !t.revoked && readAt <= LastLive(s, h)
    case SetOnce(h, t, readAt) => h in s.rows && t.id == s.rows[h].id && !t.revoked && readAt <= LastLive(s, h)
    case RowRevoked(_) => true
  }

  ghost predicate ItemOk(s: System, h: Hash, ttl: nat, d: nat)
    requires h in s.items
  {
    && h in s.rows && s.items[h].token.id == s.rows[h].id && !s.items[h].token.revoked
    && s.items[h].expiresAt <= LastLive(s, h) + d + ttl
  }

  ghost predicate Inv(s: System, ttl: nat, d: nat) {
    && RowsOk(s)
    && (forall h | h in s.items :: ItemOk(s, h, ttl, d))
    && (forall t | t in s.threads :: ThreadOk(s, s.threads[t]))
  }

  /** No step loses a row, changes an id, or moves back the last unrevoked instant. */
  ghost predicate Grows(s: System, s': System) {
    && (forall h | h in s.rows :: h in s'.rows && s'.rows[h].id == s.rows[h].id)
    && (forall h | h in s.rows :: LastLive(s, h) <= LastLive(s', h))
  }

  ghost predicate RowsOk(s: System) {
    && (forall h | h in s.rows :: s.rows[h].revoked <==> h in s.revokedAt)
    && (forall h | h in s.revokedAt :: h in s.rows && s.revokedAt[h] <= s.clock)
  }

  lemma RevocationKeepsRows(s: System, id: TokenId)
    requires RowsOk(s)
    ensures RowsOk(WithRowRevoked(s, id)) && Grows(s, WithRowRevoked(s, id))
  {}

  lemma UseKeepsRows(s: System, id: TokenId)
    requires RowsOk(s)
    ensures var s' := s.(rows := UsedRows(s.rows, id, s.clock)); RowsOk(s') && Grows(s, s')
  {}

  lemma UntouchedRows(s: System, s': System)
    requires RowsOk(s) && s'.rows == s.rows && s'.revokedAt == s.revokedAt && s.clock <= s'.clock
    ensures RowsOk(s') && Grows(s, s')
  {}

  lemma InsertKeepsRows(s: System, token: Token)
    requires RowsOk(s) && Enabled(s, InsertRow(token))
    ensures var s' := s.(rows := s.rows[token.hash := token]); RowsOk(s') && Grows(s, s')
  {}

  lemma ApplyRows(s: System, e: Step, ttl: nat)
    requires RowsOk(s) && Enabled(s, e)
    ensures RowsOk(Apply(s, e, ttl)) && Grows(s, Apply(s, e, ttl))
  {
    match e
    case RevokeRow(_, id) => RevocationKeepsRows(s, id);
    case CliRevoke(id) => RevocationKeepsRows(s, id);
    case MarkRowUsed(id) => UseKeepsRows(s, id);
    case InsertRow(token) => InsertKeepsRows(s, token);
    case _ => UntouchedRows(s, Apply(s, e, ttl));
  }

  lemma ItemStays(s: System, s': System, h: Hash, ttl: nat, d: nat)
    requires h in s.items && ItemOk(s, h, ttl, d) && Grows(s, s')
    requires h in s'.items && s'.items[h] == s.items[h]
    ensures ItemOk(s', h, ttl, d)
  {}

  lemma ItemOrigin(s: System, e: Step, ttl: nat, h: Hash)
    requires Enabled(s, e) && h in Apply(s, e, ttl).items
    ensures || (h in s.items && Apply(s, e, ttl).items[h] == s.items[h])
            || ((e.FirstSet? || e.SecondSet?) && s.threads[e.t].h == h)
  {}

  lemma NewItem(s: System, e: Step, ttl: nat, d: nat)
    requires RowsOk(s) && Enabled(s, e) && Prompt(s, e, d) && (e.FirstSet? || e.SecondSet?)
    requires ThreadOk(s, s.threads[e.t])
    ensures s.threads[e.t].h in Apply(s, e, ttl).items && ItemOk(Apply(s, e, ttl), s.threads[e.t].h, ttl, d)
  {}

  lemma ApplyItem(s: System, e: Step, ttl: nat, d: nat, h: Hash)
    requires Inv(s, ttl, d) && Enabled(s, e) && Prompt(s, e, d)
    requires h in Apply(s, e, ttl).items
    ensures ItemOk(Apply(s, e, ttl), h, ttl, d)
  {
    ItemOrigin(s, e, ttl, h);
    if (e.FirstSet? || e.SecondSet?) && s.threads[e.t].h == h {
      NewItem(s, e, ttl, d);
    } else {
      ApplyRows(s, e, ttl);
      ItemStays(s, Apply(s, e, ttl), h, ttl, d);
    }
  }

  lemma ThreadGrows(s: System, s': System, pc: Pc)
    requires ThreadOk(s, pc) && Grows(s, s')
    ensures ThreadOk(s', pc)
  {}

  lemma NewlyLoaded(s: System, t: ThreadId, ttl: nat)
    requires RowsOk(s) && Enabled(s, ReadRow(t)) && t in Apply(s, ReadRow(t), ttl).threads
    ensures ThreadOk(Apply(s, ReadRow(t), ttl), Apply(s, ReadRow(t), ttl).threads[t])
  {}

  lemma ApplyThread(s: System, e: Step, ttl: nat, d: nat, t: ThreadId)
    requires Inv(s, ttl, d) && Enabled(s, e)
    requires t in Apply(s, e, ttl).threads
    ensures ThreadOk(Apply(s, e, ttl), Apply(s, e, ttl).threads[t])
  {
    var s' := Apply(s, e, ttl);
    ApplyRows(s, e, ttl);
    if t in s.threads {
      assert ThreadOk(s, s.threads[t]);
      ThreadGrows(s, s', s.threads[t]);
    }
    if t !in s.threads || s'.threads[t] != s.threads[t] {
      match e
      case ReadCache(_, _) =>
      case ReadRow(_) => NewlyLoaded(s, t, ttl);
      case FirstSet(_) =>
      case RevokeRow(_, _) =>
    }
  }

  lemma ApplyInv(s: System, e: Step, ttl: nat, d: nat)
    requires Inv(s, ttl, d) && Enabled(s, e) && Prompt(s, e, d)
    ensures Inv(Apply(s, e, ttl), ttl, d)
  {
    var s' := Apply(s, e, ttl);
    ApplyRows(s, e, ttl);
    forall h | h in s'.items ensures ItemOk(s', h, ttl, d) { ApplyItem(s, e, ttl, d, h); }
    forall t | t in s'.threads ensures ThreadOk(s', s'.threads[t]) { ApplyThread(s, e, ttl, d, t); }
    assert RowsOk(s');
  }

  lemma {:induction false} ReachInv(s: System, es: seq<Step>, ttl: nat, d: nat)
    requires Inv(s, ttl, d) && Runs(s, es, ttl, d)
    ensures Inv(Reach(s, es, ttl, d), ttl, d)
    decreases |es|
  {
    if es != [] {
      ApplyInv(s, es[0], ttl, d);
      ReachInv(Apply(s, es[0], ttl), es[1..], ttl, d);
    }
  }

  /**
    In every interleaving: a token accepted at time t is a row of the table that
    was still unrevoked at some instant no earlier than t - ttl - d.
  */
  lemma AcceptanceBound(es: seq<Step>, e: Step, ttl: nat, d: nat)
    requires Runs(INITIAL, es, ttl, d)
    requires var s := Reach(INITIAL, es, ttl, d); Enabled(s, e) && Prompt(s, e, d)
    ensures var s := Reach(INITIAL, es, ttl, d);
            Accepts(s, e).Some? ==>
              var h := Accepts(s, e).value;
              && h in s.rows
              && (!s.rows[h].revoked || (h in s.revokedAt && s.revokedAt[h] >= s.clock - ttl - d))
  {
    ReachInv(INITIAL, es, ttl, d);
    var s := Reach(INITIAL, es, ttl, d);
    if Accepts(s, e).Some? {
      var h := Accepts(s, e).value;
      match e
      case ReadCache(_, _) => assert ItemOk(s, h, ttl, d);
      case FirstSet(t) => assert ThreadOk(s, s.threads[t]);
      case SecondSet(t) => assert ThreadOk(s, s.threads[t]);
    }
  }

  // ------------------------------------------------------- and of an expired one

  /** A copy of row h has the row's expiry. */
  ghost predicate CopyOf(s: System, h: Hash, token: Token) {
    h in s.rows && token.expiresAt == s.rows[h].expiresAt
  }

  /** Cached tokens carry their row's expiry, and no Verify goes on with a row it found expired. */
  ghost predicate ExpiryOk(s: System) {
    && (forall h | h in s.items :: CopyOf(s, h, s.items[h].token))
    && (forall t | t in s.threads && (s.threads[t].Loaded? || s.threads[t].SetOnce?) ::
          && CopyOf(s, s.threads[t].h, s.threads[t].token)
          && (s.threads[t].token.expiresAt.Some? ==> s.threads[t].readAt <= s.threads[t].token.expiresAt.value))
  }

  lemma CopyStays(s: System, e: Step, ttl: nat, h: Hash, token: Token)
    requires Enabled(s, e) && CopyOf(s, h, token)
    ensures CopyOf(Apply(s, e, ttl), h, token)
  {}

  lemma ExpiryStays(s: System, e: Step, ttl: nat)
    requires ExpiryOk(s) && Enabled(s, e)
    ensures ExpiryOk(Apply(s, e, ttl))
  {
    var s' := Apply(s, e, ttl);
    forall h | h in s'.items
      ensures CopyOf(s', h, s'.items[h].token)
    {
      ItemOrigin(s, e, ttl, h);
      if h in s.items {
        CopyStays(s, e, ttl, h, s.items[h].token);
      }
    }
    forall t | t in s'.threads && (s'.threads[t].Loaded? || s'.threads[t].SetOnce?)
      ensures CopyOf(s', s'.threads[t].h, s'.threads[t].token)
    {
      if t in s.threads && (s.threads[t].Loaded? || s.threads[t].SetOnce?) {
        CopyStays(s, e, ttl, s.threads[t].h, s.threads[t].token);
      }
    }
  }

  lemma {:induction false} ReachExpiry(s: System, es: seq<Step>, ttl: nat, d: nat)
    requires ExpiryOk(s) && Runs(s, es, ttl, d)
    ensures ExpiryOk(Reach(s, es, ttl, d))
    decreases |es|
  {
    if es != [] {
      ExpiryStays(s, es[0], ttl);
      ReachExpiry(Apply(s, es[0], ttl), es[1..], ttl, d);
    }
  }

  /** However the steps interleave, no token is accepted more than d after it expired. */
  lemma AcceptedIsUnexpired(es: seq<Step>, e: Step, ttl: nat, d: nat)
    requires Runs(INITIAL, es, ttl, d)
    requires var s := Reach(INITIAL, es, ttl, d); Enabled(s, e) && Prompt(s, e, d) && Accepts(s, e).Some?
    ensures var s := Reach(INITIAL, es, ttl, d);
            var h := Accepts(s, e).value;
            h in s.rows && (s.rows[h].expiresAt.Some? ==> s.clock <= s.rows[h].expiresAt.value + d)
  {
    ReachExpiry(INITIAL, es, ttl, d);
    var s := Reach(INITIAL, es, ttl, d);
    if e.ReadCache? {
      assert CopyOf(s, e.h, s.items[e.h].token);
    } else {
      assert CopyOf(s, s.threads[e.t].h, s.threads[e.t].token);
    }
  }

  // ------------------------------------------------- when revocation is final

  /** A Verify that has read the row and has not written the cache for the last time. */
  predicate Holds(pc: Pc, h: Hash) {
    (pc.Loaded? || pc.SetOnce?) && pc.h == h
  }

  /** Some Verify holds row h and can still write it promptly. */
  ghost predicate HeldInTime(s: System, h: Hash, d: nat) {
    exists u | u in s.threads :: Holds(s.threads[u], h) && s.clock <= s.threads[u].readAt + d
  }

  /** Row h is revoked, not cached, and whoever still holds it is too late. */
  ghost predicate Gone(s: System, h: Hash, d: nat) {
    h in s.rows && s.rows[h].revoked && h !in s.items && !HeldInTime(s, h, d)
  }

  lemma GoneStep(s: System, e: Step, ttl: nat, d: nat, h: Hash)
    requires Gone(s, h, d) && Enabled(s, e) && Prompt(s, e, d)
    ensures Gone(Apply(s, e, ttl), h, d) && Accepts(s, e) != Some(h)
  {}

  lemma {:induction false} GoneForever(s: System, es: seq<Step>, ttl: nat, d: nat, h: Hash)
    requires Gone(s, h, d) && Runs(s, es, ttl, d)
    ensures Gone(Reach(s, es, ttl, d), h, d)
    decreases |es|
  {
    if es != [] {
      GoneStep(s, es[0], ttl, d, h);
      GoneForever(Apply(s, es[0], ttl), es[1..], ttl, d, h);
    }
  }

  /** Some continuation accepts the token of row h. */
  ghost predicate ComesBack(s: System, h: Hash, ttl: nat, d: nat) {
    exists after, e ::
      && Runs(s, after, ttl, d) && Enabled(Reach(s, after, ttl, d), e) && Prompt(Reach(s, after, ttl, d), e, d)
      && Accepts(Reach(s, after, ttl, d), e) == Some(h)
  }

  lemma AcceptedAfter(s: System, after: seq<Step>, e: Step, h: Hash, ttl: nat, d: nat)
    requires Runs(s, after, ttl, d) && Enabled(Reach(s, after, ttl, d), e) && Prompt(Reach(s, after, ttl, d), e, d)
    requires Accepts(Reach(s, after, ttl, d), e) == Some(h)
    ensures ComesBack(s, h, ttl, d)
  {}

  /** A Verify that holds the row in time accepts with its own cache writes. */
  lemma HeldComesBack(s: System, h: Hash, ttl: nat, d: nat)
    requires HeldInTime(s, h, d)
    ensures ComesBack(s, h, ttl, d)
  {
    var u :| u in s.threads && Holds(s.threads[u], h) && s.clock <= s.threads[u].readAt + d;
    if s.threads[u].SetOnce? {
      AcceptedAfter(s, [], SecondSet(u), h, ttl, d);
    } else if UseIsStale(s.threads[u].token, s.clock) {
      var after := [FirstSet(u)];
      RunsBy(s, Apply(s, FirstSet(u), ttl), after, 0, ttl, d);
      assert after[0..] == after;
      AcceptedAfter(s, after, SecondSet(u), h, ttl, d);
    } else {
      AcceptedAfter(s, [], FirstSet(u), h, ttl, d);
    }
  }

  /** What a Revoke between its two steps has already done. */
  ghost predicate RevokersOk(s: System) {
    forall t | t in s.threads && s.threads[t].RowRevoked? :: AllRevoked(s.rows, s.threads[t].id)
  }

  ghost predicate AllRevoked(rows: Rows, id: TokenId) {
    HasId(rows, id) && forall h | h in rows && rows[h].id == id :: rows[h].revoked
  }

  lemma RevokedStay(s: System, e: Step, ttl: nat, id: TokenId)
    requires AllRevoked(s.rows, id) && Enabled(s, e)
    ensures AllRevoked(Apply(s, e, ttl).rows, id)
  {
    var h :| h in s.rows && s.rows[h].id == id;
    var rows := Apply(s, e, ttl).rows;
    assert h in rows && rows[h].id == id;
  }

  lemma RevokersStay(s: System, e: Step, ttl: nat)
    requires RevokersOk(s) && Enabled(s, e)
    ensures RevokersOk(Apply(s, e, ttl))
  {
    var s' := Apply(s, e, ttl);
    forall t | t in s'.threads && s'.threads[t].RowRevoked?
      ensures AllRevoked(s'.rows, s'.threads[t].id)
    {
      if t in s.threads && s.threads[t] == s'.threads[t] {
        RevokedStay(s, e, ttl, s.threads[t].id);
      } else {
        assert e == RevokeRow(t, s'.threads[t].id);
        var h :| h in s.rows && s.rows[h].id == e.id;
        assert h in s'.rows && s'.rows[h].id == e.id;
      }
    }
  }

  lemma {:induction false} ReachRevokers(s: System, es: seq<Step>, ttl: nat, d: nat)
    requires RevokersOk(s) && Runs(s, es, ttl, d)
    ensures RevokersOk(Reach(s, es, ttl, d))
    decreases |es|
  {
    if es != [] {
      RevokersStay(s, es[0], ttl);
      ReachRevokers(Apply(s, es[0], ttl), es[1..], ttl, d);
    }
  }

  /** Revoke has updated the row and is about to invalidate the cache. */
  ghost predicate AboutToInvalidate(es: seq<Step>, t: ThreadId, ttl: nat, d: nat, h: Hash) {
    && Runs(INITIAL, es, ttl, d)
    && var s := Reach(INITIAL, es, ttl, d);
    && t in s.threads && s.threads[t].RowRevoked?
    && h in s.rows && s.rows[h].id == s.threads[t].id
  }

  lemma InvalidatedRow(es: seq<Step>, t: ThreadId, ttl: nat, d: nat, h: Hash)
    requires AboutToInvalidate(es, t, ttl, d, h)
    ensures var s1 := Apply(Reach(INITIAL, es, ttl, d), Invalidate(t), ttl);
            h in s1.rows && s1.rows[h].revoked && h !in s1.items
  {
    ReachInv(INITIAL, es, ttl, d);
    ReachRevokers(INITIAL, es, ttl, d);
    var s := Reach(INITIAL, es, ttl, d);
    assert AllRevoked(s.rows, s.threads[t].id);
    if h in s.items {
      assert ItemOk(s, h, ttl, d);
    }
  }

  /** A Revoke that invalidates the cache while no Verify holds the row in time is final, in any continuation. */
  lemma QuietRevokeIsFinal(es: seq<Step>, t: ThreadId, after: seq<Step>, e: Step, ttl: nat, d: nat, h: Hash)
    requires AboutToInvalidate(es, t, ttl, d, h)
    requires var s1 := Apply(Reach(INITIAL, es, ttl, d), Invalidate(t), ttl);
             && !HeldInTime(s1, h, d) && Runs(s1, after, ttl, d)
             && Enabled(Reach(s1, after, ttl, d), e) && Prompt(Reach(s1, after, ttl, d), e, d)
    ensures var s1 := Apply(Reach(INITIAL, es, ttl, d), Invalidate(t), ttl);
            Accepts(Reach(s1, after, ttl, d), e) != Some(h)
  {
    InvalidatedRow(es, t, ttl, d, h);
    var s1 := Apply(Reach(INITIAL, es, ttl, d), Invalidate(t), ttl);
    GoneForever(s1, after, ttl, d, h);
    GoneStep(Reach(s1, after, ttl, d), e, ttl, d, h);
  }

  /**
    After a Revoke has invalidated the cache, some continuation accepts the token
    again if and only if some Verify holds the row it read, and read it no longer
    ago than d.
  */
  lemma RevokedComesBackIffHeld(es: seq<Step>, t: ThreadId, ttl: nat, d: nat, h: Hash)
    requires AboutToInvalidate(es, t, ttl, d, h)
    ensures var s1 := Apply(Reach(INITIAL, es, ttl, d), Invalidate(t), ttl);
            ComesBack(s1, h, ttl, d) <==> HeldInTime(s1, h, d)
  {
    var s1 := Apply(Reach(INITIAL, es, ttl, d), Invalidate(t), ttl);
    if HeldInTime(s1, h, d) {
      HeldComesBack(s1, h, ttl, d);
    } else {
      forall after, e | Runs(s1, after, ttl, d) && Enabled(Reach(s1, after, ttl, d), e)
                        && Prompt(Reach(s1, after, ttl, d), e, d)
        ensures Accepts(Reach(s1, after, ttl, d), e) != Some(h)
      {
        QuietRevokeIsFinal(es, t, after, e, ttl, d, h);
      }
    }
  }

  // -------------------------------------------------------- the bound is tight

  /** A Verify has read the row; then Revoke ran from beginning to end. */
  ghost function Raced(token: Token): System {
    System(0, map[token.hash := token.(revoked := true)], map[token.hash := 0], map[],
           map[0 := Loaded(token.hash, token, 0)])
  }

  function RacePrefix(token: Token): seq<Step> {
    [InsertRow(token), ReadCache(0, token.hash), ReadRow(0), RevokeRow(1, token.id), Invalidate(1)]
  }

  lemma ReachRaced(token: Token, rest: seq<Step>, ttl: nat, d: nat)
    requires !token.revoked && token.expiresAt.None? && Runs(Raced(token), rest, ttl, d)
    ensures Runs(INITIAL, RacePrefix(token) + rest, ttl, d)
    ensures Reach(INITIAL, RacePrefix(token) + rest, ttl, d) == Reach(Raced(token), rest, ttl, d)
  {
    var h, es := token.hash, RacePrefix(token) + rest;
    var s1 := INITIAL.(rows := map[h := token]);
    var s2 := s1.(threads := map[0 := Missed(h)]);
    var s3 := s1.(threads := map[0 := Loaded(h, token, 0)]);
    RevokedMeanwhile(token, rest, ttl, d);
    RunsBy(s2, s3, es, 2, ttl, d);
    RunsBy(s1, s2, es, 1, ttl, d);
    RunsBy(INITIAL, s1, es, 0, ttl, d);
    assert es[0..] == es;
  }

  lemma RevokedMeanwhile(token: Token, rest: seq<Step>, ttl: nat, d: nat)
    requires !token.revoked && token.expiresAt.None? && Runs(Raced(token), rest, ttl, d)
    ensures var es := RacePrefix(token) + rest;
            var s := INITIAL.(rows := map[token.hash := token], threads := map[0 := Loaded(token.hash, token, 0)]);
            Runs(s, es[3..], ttl, d) && Reach(s, es[3..], ttl, d) == Reach(Raced(token), rest, ttl, d)
  {
    var h, es := token.hash, RacePrefix(token) + rest;
    var s3 := INITIAL.(rows := map[h := token], threads := map[0 := Loaded(h, token, 0)]);
    var s5 := Raced(token);
    var s4 := s5.(threads := map[0 := Loaded(h, token, 0), 1 := RowRevoked(token.id)]);
    assert h in s3.rows && s3.rows[h].id == token.id;
    assert es[5..] == rest;
    assert Apply(s4, Invalidate(1), ttl) == s5;
    RunsBy(s4, s5, es, 4, ttl, d);
    assert Apply(s3, RevokeRow(1, token.id), ttl) == s4;
    RunsBy(s3, s4, es, 3, ttl, d);
  }

  lemma RunsBy(s: System, s': System, es: seq<Step>, i: nat, ttl: nat, d: nat)
    requires i < |es| && Enabled(s, es[i]) && Prompt(s, es[i], d)
    requires s' == Apply(s, es[i], ttl) && Runs(s', es[i + 1..], ttl, d)
    ensures Runs(s, es[i..], ttl, d) && Reach(s, es[i..], ttl, d) == Reach(s', es[i + 1..], ttl, d)
  {
    assert es[i..][1..] == es[i + 1..];
  }

  lemma RacedAccepts(token: Token, ttl: nat, d: nat)
    requires !token.revoked && token.expiresAt.None? && token.lastUsed == Some(d)
    ensures var es := [Tick(d), FirstSet(0), Tick(ttl)];
            && Runs(Raced(token), es, ttl, d)
            && Reach(Raced(token), es, ttl, d) ==
               System(d + ttl, map[token.hash := token.(revoked := true)], map[token.hash := 0],
                      map[token.hash := CachedToken(token, d + ttl)], map[])
  {
    var es := [Tick(d), FirstSet(0), Tick(ttl)];
    var s5, h := Raced(token), token.hash;
    var s6 := s5.(clock := d);
    var s7 := s6.(items := map[h := CachedToken(token, d + ttl)], threads := map[]);
    assert Apply(s6, FirstSet(0), ttl) == s7;
    var s8 := s7.(clock := d + ttl);
    assert es[3..] == [];
    RunsBy(s7, s8, es, 2, ttl, d);
    RunsBy(s6, s7, es, 1, ttl, d);
    RunsBy(s5, s6, es, 0, ttl, d);
    assert es[0..] == es;
  }

  /**
    The bound is met: revoking through the service does not help against a Verify
    that has already read the row, and a token revoked at 0 is accepted at d + ttl.
  */
  lemma BoundIsReached(token: Token, ttl: nat, d: nat)
    requires !token.revoked && token.expiresAt.None? && token.lastUsed == Some(d)
    ensures exists es, e ::
              && Runs(INITIAL, es, ttl, d)
              && var s := Reach(INITIAL, es, ttl, d);
              && Enabled(s, e) && Prompt(s, e, d)
              && Accepts(s, e) == Some(token.hash)
              && s.clock == d + ttl
              && token.hash in s.revokedAt && s.revokedAt[token.hash] == 0
  {
    var rest := [Tick(d), FirstSet(0), Tick(ttl)];
    RacedAccepts(token, ttl, d);
    ReachRaced(token, rest, ttl, d);
    var es := RacePrefix(token) + rest;
    var s := Reach(INITIAL, es, ttl, d);
    assert Accepts(s, ReadCache(2, token.hash)) == Some(token.hash);
  }
}

/**
  The token rate limiter (internal/auth/limiter.go): 32 shards, each a
  bounded table of token buckets, swept for idle entries in the background and,
  when full, on insertion.

  A bucket of limit L holds at most L tokens and refills L tokens per minute.
  Credit is counted in units of one token divided by MINUTE, so refilling for
  d nanoseconds adds exactly L * d units and one request costs MINUTE units.
*/
module RateLimiter {
  import opened Sets
  import opened Wrappers

  const NUM_SHARDS := 32
  const MAX_KEYS_PER_SHARD := 2048
  const SECOND: int := 1_000_000_000
  const MINUTE: int := 60_000_000_000
  const IDLE_EVICT_TIMEOUT: int := 180_000_000_000

  type Time = int
  type Key = seq<bv8>

  // ---------------------------------------------------------------- buckets

  datatype Bucket = Bucket(limit: nat, credit: int, last: Time)

  datatype Response = Response(allowed: bool, remaining: nat, resetEpoch: int)

  function Capacity(limit: nat): int {
    limit * MINUTE
  }

  function FreshBucket(limit: nat, now: Time): Bucket {
    Bucket(limit, Capacity(limit), now)
  }

  /** The credit of b at time now; a clock reading before b.last counts as b.last. */
  function Refilled(b: Bucket, now: Time): int {
    var credit := b.credit + b.limit * (if now < b.last then 0 else now - b.last);
    if credit > Capacity(b.limit) then Capacity(b.limit) else credit
  }

  /** Whole tokens available at time now. */
  function Tokens(b: Bucket, now: Time): int {
    Refilled(b, now) / MINUTE
  }

  predicate Allows(b: Bucket, now: Time) {
    Refilled(b, now) >= MINUTE
  }

  /** A granted request pays one token; a refused one leaves the bucket as it was. */
  function Take(b: Bucket, now: Time): Bucket {
    if Allows(b, now) then Bucket(b.limit, Refilled(b, now) - MINUTE, now) else b
  }

  function Answer(b: Bucket, now: Time): Response {
    Response(
      Allows(b, now),
      if Allows(b, now) && Tokens(b, now) >= 1 then Tokens(b, now) - 1 else 0,
      (now + MINUTE) / SECOND)
  }

  ghost predicate BucketOk(b: Bucket) {
    b.limit > 0 && 0 <= b.credit <= Capacity(b.limit)
  }

  lemma ProductMonotone(l: nat, x: int, y: int)
    requires x <= y
    ensures l * x <= l * y
  {}

  lemma RefillBounds(b: Bucket, now: Time)
    requires BucketOk(b)
    ensures b.credit <= Refilled(b, now) <= Capacity(b.limit)
  {
    ProductMonotone(b.limit, 0, if now < b.last then 0 else now - b.last);
  }

  /** Waiting adds at most limit per nanosecond, and never loses credit. */
  lemma RefillGrowth(b: Bucket, t: Time, now: Time)
    requires BucketOk(b) && t <= now
    ensures Refilled(b, t) <= Refilled(b, now) <= Refilled(b, t) + b.limit * (now - t)
  {
    var d0 := if t < b.last then 0 else t - b.last;
    var d1 := if now < b.last then 0 else now - b.last;
    ProductMonotone(b.limit, d0, d1);
    ProductMonotone(b.limit, d1, d0 + (now - t));
    assert b.limit * (d0 + (now - t)) == b.limit * d0 + b.limit * (now - t);
    ProductMonotone(b.limit, 0, now - t);
  }

  lemma TakeOk(b: Bucket, now: Time)
    requires BucketOk(b)
    ensures BucketOk(Take(b, now)) && Take(b, now).limit == b.limit
  {
    RefillBounds(b, now);
  }

  /** A bucket untouched for a minute is full. */
  lemma FullAfterMinute(b: Bucket, now: Time)
    requires BucketOk(b) && now - b.last >= MINUTE
    ensures Refilled(b, now) == Capacity(b.limit)
  {
    ProductMonotone(b.limit, MINUTE, now - b.last);
  }

  /** A full bucket cannot be told from a new one. */
  lemma FullIsFresh(b: Bucket, now: Time)
    requires BucketOk(b) && Refilled(b, now) == Capacity(b.limit)
    ensures Take(b, now) == Take(FreshBucket(b.limit, now), now)
    ensures Answer(b, now) == Answer(FreshBucket(b.limit, now), now)
    ensures Allows(b, now)
  {
    ProductMonotone(b.limit, 0, 0);
    assert b.limit * MINUTE >= MINUTE by { ProductMonotone(b.limit - 1, 0, MINUTE); }
  }

  // ----------------------------------------------------- one shard, as a map

  datatype Entry = Entry(lastSeen: Time, bucket: Bucket)

  type Table = map<Key, Entry>

  /** 32-bit FNV-1a. */
  function Fnv1a(key: Key, h: bv32): bv32 {
    if key == [] then h else Fnv1a(key[1..], (h ^ (key[0] as bv32)) * 16777619)
  }

  function ShardIndex(key: Key): (i: nat)
    ensures i < NUM_SHARDS
  {
    (Fnv1a(key, 2166136261) as int) % NUM_SHARDS
  }

  function EvictIdle(m: Table, threshold: Time): Table {
    map k | k in m && m[k].lastSeen >= threshold :: m[k]
  }

  /** The table an insertion finds: swept, and short of one victim, when it was full. */
  function MakeRoom(m: Table, now: Time, victim: Option<Key>): Table {
    if |m| < MAX_KEYS_PER_SHARD then m
    else
      var swept := EvictIdle(m, now - IDLE_EVICT_TIMEOUT);
      match victim case None => swept case Some(k) => swept - {k}
  }

  /** The forced eviction removes one listed key, exactly when sweeping did not make room. */
  predicate VictimLegal(m: Table, now: Time, victim: Option<Key>) {
    var swept := EvictIdle(m, now - IDLE_EVICT_TIMEOUT);
    if |m| >= MAX_KEYS_PER_SHARD && |swept| >= MAX_KEYS_PER_SHARD
    then victim.Some? && victim.value in swept
    else victim.None?
  }

  predicate Hit(m: Table, id: Key, limit: nat) {
    id in m && m[id].bucket.limit == limit
  }

  /** The bucket a request is decided on. */
  function Serving(m: Table, id: Key, limit: nat, now: Time): Bucket {
    if Hit(m, id, limit) then m[id].bucket else FreshBucket(limit, now)
  }

  function AllowIn(m: Table, id: Key, limit: nat, now: Time, victim: Option<Key>): Table {
    (if Hit(m, id, limit) then m else MakeRoom(m, now, victim))
    [id := Entry(now, Take(Serving(m, id, limit, now), now))]
  }

  // ------------------------------------------------------- the sharded table

  type State = s: seq<Table> | |s| == NUM_SHARDS witness seq(NUM_SHARDS, i => map[])

  /** Every key sits in the shard its hash names, so in no other, and no shard is over its bound. */
  ghost predicate ValidTable(m: Table, index: nat) {
    && |m| <= MAX_KEYS_PER_SHARD
    && forall k | k in m :: ShardIndex(k) == index && BucketOk(m[k].bucket)
  }

  ghost predicate Valid(s: State) {
    forall i | 0 <= i < NUM_SHARDS :: ValidTable(s[i], i)
  }

  datatype Event =
    | Request(id: Key, limit: int, now: Time, victim: Option<Key>)
    | Sweep(now: Time)

  ghost predicate Legal(s: State, e: Event) {
    match e
    case Request(id, limit, now, victim) =>
      if limit <= 0 || Hit(s[ShardIndex(id)], id, limit) then victim.None?
      else VictimLegal(s[ShardIndex(id)], now, victim)
    case Sweep(_) => true
  }

  ghost function Next(s: State, e: Event): State {
    match e
    case Request(id, limit, now, victim) =>
      if limit <= 0 then s
      else var i := ShardIndex(id); s[i := AllowIn(s[i], id, limit, now, victim)]
    case Sweep(now) => seq(NUM_SHARDS, i requires 0 <= i < NUM_SHARDS => EvictIdle(s[i], now - IDLE_EVICT_TIMEOUT))
  }

  function Reply(s: State, id: Key, limit: int, now: Time): Response {
    if limit <= 0 then Response(true, 999999, (now + MINUTE) / SECOND)
    else Answer(Serving(s[ShardIndex(id)], id, limit, now), now)
  }

  // -------------------------------------------------------- the mutable table

  class TokenRateLimiter {
    const shards: array<Table>

    ghost predicate Ready()
      reads this, shards
    {
      shards.Length == NUM_SHARDS && Valid(shards[..])
    }

    constructor ()
      ensures Ready() && fresh(shards)
      ensures shards[..] == EMPTY
    {
      shards := new Table[NUM_SHARDS](i => map[]);
    }

    /** Deletes the entries of one shard last seen before threshold. */
    method SweepShard(i: nat, threshold: Time)
      requires shards.Length == NUM_SHARDS && i < NUM_SHARDS
      modifies shards
      ensures shards[..] == old(shards[..])[i := EvictIdle(old(shards[i]), threshold)]
    {
      var todo := shards[i].Keys;
      while todo != {}
        invariant todo <= old(shards[i]).Keys
        invariant shards[..] == old(shards[..])[i := shards[i]]
        invariant shards[i] == map k | k in old(shards[i]) && (k in todo || old(shards[i])[k].lastSeen >= threshold)
                                 :: old(shards[i])[k]
        decreases todo
      {
        var k :| k in todo;
        if shards[i][k].lastSeen < threshold {
          shards[i] := shards[i] - {k};
        }
        todo := todo - {k};
      }
      assert shards[i] == EvictIdle(old(shards[i]), threshold);
    }

    /** One pass of the background sweep. */
    method Cleanup(now: Time)
      requires Ready()
      modifies shards
      ensures Ready()
      ensures shards[..] == Next(old(shards[..]), Sweep(now))
    {
      ghost var before: State := shards[..];
      var i := 0;
      while i < NUM_SHARDS
        invariant 0 <= i <= NUM_SHARDS
        invariant forall j | 0 <= j < NUM_SHARDS ::
                    shards[j] == if j < i then EvictIdle(before[j], now - IDLE_EVICT_TIMEOUT) else before[j]
      {
        ghost var mid := shards[..];
        SweepShard(i, now - IDLE_EVICT_TIMEOUT);
        forall j | 0 <= j < NUM_SHARDS
          ensures shards[j] == if j <= i then EvictIdle(before[j], now - IDLE_EVICT_TIMEOUT) else before[j]
        {
          assert shards[j] == shards[..][j];
          assert mid[j] == if j < i then EvictIdle(before[j], now - IDLE_EVICT_TIMEOUT) else before[j];
        }
        i := i + 1;
      }
      SweptIsNext(before, shards[..], now);
    }

    /** Decides one request; victim is the key the forced eviction removed, if it ran. */
    method Allow(id: Key, limitRPM: int, now: Time) returns (r: Response, ghost victim: Option<Key>)
      requires Ready()
      modifies shards
      ensures Ready()
      ensures Legal(old(shards[..]), Request(id, limitRPM, now, victim))
      ensures shards[..] == Next(old(shards[..]), Request(id, limitRPM, now, victim))
      ensures r == Reply(old(shards[..]), id, limitRPM, now)
    {
      victim := None;
      if limitRPM <= 0 {
        return Response(true, 999999, (now + MINUTE) / SECOND), None;
      }
      var i := ShardIndex(id);
      ghost var before := shards[..];
      if id in shards[i] && shards[i][id].bucket.limit == limitRPM {
        var b := shards[i][id].bucket;
        r := Answer(b, now);
        shards[i] := shards[i][id := Entry(now, Take(b, now))];
      } else {
        if |shards[i]| >= MAX_KEYS_PER_SHARD {
          SweepShard(i, now - IDLE_EVICT_TIMEOUT);
          if |shards[i]| >= MAX_KEYS_PER_SHARD {
            var k :| k in shards[i];
            shards[i] := shards[i] - {k};
            victim := Some(k);
          }
        }
        assert shards[..] == before[i := MakeRoom(before[i], now, victim)];
        var b := FreshBucket(limitRPM, now);
        r := Answer(b, now);
        shards[i] := shards[i][id := Entry(now, Take(b, now))];
      }
      assert shards[..] == before[i := AllowIn(before[i], id, limitRPM, now, victim)];
      NextValid(before, Request(id, limitRPM, now, victim));
    }
  }

  // ------------------------------------------------------- shape of the table

  lemma SweptIsNext(s: State, swept: seq<Table>, now: Time)
    requires Valid(s) && |swept| == NUM_SHARDS
    requires forall j | 0 <= j < NUM_SHARDS :: swept[j] == EvictIdle(s[j], now - IDLE_EVICT_TIMEOUT)
    ensures swept == Next(s, Sweep(now)) && Valid(swept)
  {
    assert swept == Next(s, Sweep(now));
    NextValid(s, Sweep(now));
  }

  lemma EvictIdleShrinks(m: Table, threshold: Time)
    ensures |EvictIdle(m, threshold)| <= |m|
  {
    var kept := EvictIdle(m, threshold);
    assert kept.Keys <= m.Keys;
    SubsetSize(kept.Keys, m.Keys);
  }

  /** What MakeRoom leaves has room for one more entry. */
  lemma MakeRoomFits(m: Table, now: Time, victim: Option<Key>)
    requires |m| <= MAX_KEYS_PER_SHARD && VictimLegal(m, now, victim)
    ensures |MakeRoom(m, now, victim)| < MAX_KEYS_PER_SHARD
    ensures MakeRoom(m, now, victim).Keys <= m.Keys
    ensures forall k | k in MakeRoom(m, now, victim) :: MakeRoom(m, now, victim)[k] == m[k]
    ensures forall k | k in m ::
              k in MakeRoom(m, now, victim) <==>
                |m| < MAX_KEYS_PER_SHARD || (m[k].lastSeen >= now - IDLE_EVICT_TIMEOUT && victim != Some(k))
  {
    if |m| >= MAX_KEYS_PER_SHARD {
      var swept := EvictIdle(m, now - IDLE_EVICT_TIMEOUT);
      EvictIdleShrinks(m, now - IDLE_EVICT_TIMEOUT);
      if victim.Some? {
        var room := swept - {victim.value};
        assert room.Keys == swept.Keys - {victim.value};
        assert |room| == |room.Keys|;
      }
    }
  }

  lemma ServedOk(m: Table, id: Key, limit: nat, now: Time)
    requires limit > 0 && (id in m ==> BucketOk(m[id].bucket))
    ensures BucketOk(Take(Serving(m, id, limit, now), now))
  {
    assert BucketOk(FreshBucket(limit, now)) by { ProductMonotone(limit, 0, MINUTE); }
    TakeOk(Serving(m, id, limit, now), now);
  }

  lemma AllowInFits(m: Table, id: Key, limit: nat, now: Time, victim: Option<Key>)
    requires |m| <= MAX_KEYS_PER_SHARD && (Hit(m, id, limit) || VictimLegal(m, now, victim))
    ensures |AllowIn(m, id, limit, now, victim)| <= MAX_KEYS_PER_SHARD
  {
    var room := if Hit(m, id, limit) then m else MakeRoom(m, now, victim);
    var next := AllowIn(m, id, limit, now, victim);
    assert next.Keys == room.Keys + {id};
    if Hit(m, id, limit) {
      assert next.Keys == m.Keys;
      assert |next| == |next.Keys| == |m.Keys| == |m|;
    } else {
      MakeRoomFits(m, now, victim);
      assert |next| == |next.Keys| <= |room.Keys| + 1;
    }
  }

  lemma AllowInValid(m: Table, index: nat, id: Key, limit: nat, now: Time, victim: Option<Key>)
    requires ValidTable(m, index) && ShardIndex(id) == index && limit > 0
    requires Hit(m, id, limit) || VictimLegal(m, now, victim)
    ensures ValidTable(AllowIn(m, id, limit, now, victim), index)
  {
    ServedOk(m, id, limit, now);
    AllowInFits(m, id, limit, now, victim);
    if !Hit(m, id, limit) {
      MakeRoomFits(m, now, victim);
    }
  }

  lemma NextValid(s: State, e: Event)
    requires Valid(s) && Legal(s, e)
    ensures Valid(Next(s, e))
  {
    match e
    case Request(id, limit, now, victim) =>
      if limit > 0 {
        AllowInValid(s[ShardIndex(id)], ShardIndex(id), id, limit, now, victim);
      }
    case Sweep(now) =>
      forall i | 0 <= i < NUM_SHARDS
        ensures ValidTable(Next(s, e)[i], i)
      {
        EvictIdleShrinks(s[i], now - IDLE_EVICT_TIMEOUT);
      }
  }

  // ------------------------------------- the private bucket, and the refinement

  ghost predicate Ordered(events: seq<Event>, from: Time) {
    && (forall i | 0 <= i < |events| :: from <= events[i].now)
    && (forall i, j | 0 <= i < j < |events| :: events[i].now <= events[j].now)
  }

  ghost predicate LegalRun(s: State, events: seq<Event>)
    decreases |events|
  {
    events == [] || (Legal(s, events[0]) && LegalRun(Next(s, events[0]), events[1..]))
  }

  ghost function After(s: State, events: seq<Event>): State
    decreases |events|
  {
    if events == [] then s else After(Next(s, events[0]), events[1..])
  }

  /** The answers the sharded table gives to requests of key k. */
  ghost function Replies(s: State, events: seq<Event>, k: Key): seq<Response>
    decreases |events|
  {
    if events == [] then []
    else
      var e := events[0];
      (if e.Request? && e.id == k then [Reply(s, k, e.limit, e.now)] else []) + Replies(Next(s, e), events[1..], k)
  }

  /** Key k keeps the limit L and is never the victim of a forced eviction. */
  predicate Undisturbed(e: Event, k: Key, limit: nat) {
    e.Request? ==> (e.id == k ==> e.limit == limit) && e.victim != Some(k)
  }

  function PrivateBucket(p: Option<Bucket>, limit: nat, now: Time): Bucket {
    match p case None => FreshBucket(limit, now) case Some(b) => b
  }

  function PrivateNext(p: Option<Bucket>, e: Event, k: Key, limit: nat): Option<Bucket> {
    if e.Request? && e.id == k then Some(Take(PrivateBucket(p, limit, e.now), e.now)) else p
  }

  /** One bucket of limit L, made at the first request of k and never evicted. */
  function PrivateReplies(p: Option<Bucket>, events: seq<Event>, k: Key, limit: nat): seq<Response>
    decreases |events|
  {
    if events == [] then []
    else
      var e := events[0];
      (if e.Request? && e.id == k then [Answer(PrivateBucket(p, limit, e.now), e.now)] else [])
      + PrivateReplies(PrivateNext(p, e, k, limit), events[1..], k, limit)
  }

  function PrivateAfter(p: Option<Bucket>, events: seq<Event>, k: Key, limit: nat): Option<Bucket>
    decreases |events|
  {
    if events == [] then p else PrivateAfter(PrivateNext(p, events[0], k, limit), events[1..], k, limit)
  }

  /** The table at time t and the private bucket p cannot be told apart through key k. */
  ghost predicate Agree(s: State, p: Option<Bucket>, k: Key, limit: nat, t: Time) {
    var m := s[ShardIndex(k)];
    && (p.Some? ==> BucketOk(p.value) && p.value.limit == limit)
    && (if k in m then p == Some(m[k].bucket) && m[k].bucket.last <= m[k].lastSeen <= t
        else p.Some? ==> Refilled(p.value, t) == Capacity(limit))
  }

  lemma FullLater(b: Bucket, t: Time, now: Time)
    requires BucketOk(b) && t <= now && Refilled(b, t) == Capacity(b.limit)
    ensures Refilled(b, now) == Capacity(b.limit)
  {
    RefillGrowth(b, t, now);
    RefillBounds(b, now);
  }

  /** Agreement at t is agreement at any later time. */
  lemma AgreeLater(s: State, p: Option<Bucket>, k: Key, limit: nat, t: Time, now: Time)
    requires Agree(s, p, k, limit, t) && t <= now
    ensures Agree(s, p, k, limit, now)
  {
    if p.Some? && k !in s[ShardIndex(k)] {
      FullLater(p.value, t, now);
    }
  }

  /** Dropping k's entry keeps agreement when it has been idle for over three minutes. */
  lemma AgreeEvicted(s: State, s': State, p: Option<Bucket>, k: Key, limit: nat, now: Time)
    requires Agree(s, p, k, limit, now)
    requires var m, m' := s[ShardIndex(k)], s'[ShardIndex(k)];
             if k in m' then k in m && m'[k] == m[k]
             else k in m ==> m[k].lastSeen < now - IDLE_EVICT_TIMEOUT
    ensures Agree(s', p, k, limit, now)
  {
    var m := s[ShardIndex(k)];
    if k in m && k !in s'[ShardIndex(k)] {
      FullAfterMinute(p.value, now);
    }
  }

  /** An event that is not a request of k leaves k's entry alone, or evicts it as idle. */
  lemma OtherEvent(s: State, e: Event, k: Key, limit: nat)
    requires Legal(s, e) && Undisturbed(e, k, limit) && !(e.Request? && e.id == k)
    ensures var m, m' := s[ShardIndex(k)], Next(s, e)[ShardIndex(k)];
            if k in m' then k in m && m'[k] == m[k]
            else k in m ==> m[k].lastSeen < e.now - IDLE_EVICT_TIMEOUT
  {}

  lemma OwnRequest(s: State, p: Option<Bucket>, e: Event, k: Key, limit: nat)
    requires limit > 0 && Agree(s, p, k, limit, e.now) && Legal(s, e)
    requires e.Request? && e.id == k && e.limit == limit
    ensures Reply(s, k, limit, e.now) == Answer(PrivateBucket(p, limit, e.now), e.now)
    ensures Agree(Next(s, e), PrivateNext(p, e, k, limit), k, limit, e.now)
  {
    var m := s[ShardIndex(k)];
    var created := FreshBucket(limit, e.now);
    assert BucketOk(created) by { ProductMonotone(limit, 0, MINUTE); }
    var b := PrivateBucket(p, limit, e.now);
    TakeOk(b, e.now);
    if k !in m && p.Some? {
      FullIsFresh(p.value, e.now);
    }
    var m' := AllowIn(m, k, limit, e.now, e.victim);
    assert Next(s, e)[ShardIndex(k)] == m';
    assert m'[k] == Entry(e.now, Take(Serving(m, k, limit, e.now), e.now));
    assert Take(Serving(m, k, limit, e.now), e.now) == Take(b, e.now);
    if !Allows(b, e.now) && k !in m && p.Some? {
      assert false;
    }
  }

  lemma AgreeStep(s: State, p: Option<Bucket>, e: Event, k: Key, limit: nat, t: Time)
    requires limit > 0 && Agree(s, p, k, limit, t) && t <= e.now
    requires Legal(s, e) && Undisturbed(e, k, limit)
    ensures e.Request? && e.id == k ==> Reply(s, k, e.limit, e.now) == Answer(PrivateBucket(p, limit, e.now), e.now)
    ensures Agree(Next(s, e), PrivateNext(p, e, k, limit), k, limit, e.now)
  {
    AgreeLater(s, p, k, limit, t, e.now);
    if e.Request? && e.id == k {
      OwnRequest(s, p, e, k, limit);
    } else {
      OtherEvent(s, e, k, limit);
      AgreeEvicted(s, Next(s, e), p, k, limit, e.now);
    }
  }

  function EndTime(events: seq<Event>, from: Time): Time {
    if events == [] then from else events[|events| - 1].now
  }

  lemma {:induction false} SameReplies(s: State, p: Option<Bucket>, events: seq<Event>, k: Key, limit: nat, t: Time)
    requires limit > 0 && Agree(s, p, k, limit, t)
    requires LegalRun(s, events) && Ordered(events, t)
    requires forall e | e in events :: Undisturbed(e, k, limit)
    ensures Replies(s, events, k) == PrivateReplies(p, events, k, limit)
    decreases |events|
  {
    if events != [] {
      var e := events[0];
      assert e in events;
      AgreeStep(s, p, e, k, limit, t);
      SameReplies(Next(s, e), PrivateNext(p, e, k, limit), events[1..], k, limit, e.now);
    }
  }

  lemma {:induction false} StillAgree(s: State, p: Option<Bucket>, events: seq<Event>, k: Key, limit: nat, t: Time)
    requires limit > 0 && Agree(s, p, k, limit, t)
    requires LegalRun(s, events) && Ordered(events, t)
    requires forall e | e in events :: Undisturbed(e, k, limit)
    ensures Agree(After(s, events), PrivateAfter(p, events, k, limit), k, limit, EndTime(events, t))
    decreases |events|
  {
    if events != [] {
      var e := events[0];
      assert e in events;
      AgreeStep(s, p, e, k, limit, t);
      StillAgree(Next(s, e), PrivateNext(p, e, k, limit), events[1..], k, limit, e.now);
    }
  }

  /** From any table and private bucket that agree on k, the answers are the same, and they still agree afterwards. */
  lemma Simulation(s: State, p: Option<Bucket>, events: seq<Event>, k: Key, limit: nat, t: Time)
    requires limit > 0 && Agree(s, p, k, limit, t)
    requires LegalRun(s, events) && Ordered(events, t)
    requires forall e | e in events :: Undisturbed(e, k, limit)
    ensures Replies(s, events, k) == PrivateReplies(p, events, k, limit)
    ensures Agree(After(s, events), PrivateAfter(p, events, k, limit), k, limit, EndTime(events, t))
  {
    SameReplies(s, p, events, k, limit, t);
    StillAgree(s, p, events, k, limit, t);
  }

  const EMPTY: State := seq(NUM_SHARDS, i => map[])

  /**
    Sharding, the size bound and idle eviction are unobservable: a key that keeps
    its limit and escapes the forced eviction gets, in every run, the answers of
    one private bucket that is never evicted.
  */
  lemma IdleEvictionUnobservable(events: seq<Event>, k: Key, limit: nat, start: Time)
    requires limit > 0
    requires LegalRun(EMPTY, events) && Ordered(events, start)
    requires forall e | e in events :: Undisturbed(e, k, limit)
    ensures Replies(EMPTY, events, k) == PrivateReplies(None, events, k, limit)
  {
    Simulation(EMPTY, None, events, k, limit, start);
  }

  lemma {:induction false} ValidRun(s: State, events: seq<Event>)
    requires Valid(s) && LegalRun(s, events)
    ensures Valid(After(s, events))
    decreases |events|
  {
    if events != [] {
      NextValid(s, events[0]);
      ValidRun(Next(s, events[0]), events[1..]);
    }
  }

  /** In every reachable table each key is in exactly the shard of its hash, and no shard is over its bound. */
  lemma ReachableValid(events: seq<Event>, i: nat, k: Key)
    requires LegalRun(EMPTY, events) && i < NUM_SHARDS
    ensures |After(EMPTY, events)[i]| <= MAX_KEYS_PER_SHARD
    ensures k in After(EMPTY, events)[i] ==> i == ShardIndex(k)
  {
    ValidRun(EMPTY, events);
    assert ValidTable(After(EMPTY, events)[i], i);
  }

  // ---------------------------------------------------------- the window bound

  function Allowed(rs: seq<Response>): nat {
    if rs == [] then 0 else (if rs[0].allowed then 1 else 0) + Allowed(rs[1..])
  }

  lemma {:induction false} AllowedConcat(a: seq<Response>, b: seq<Response>)
    ensures Allowed(a + b) == Allowed(a) + Allowed(b)
  {
    if a == [] {
      assert a + b == b;
    } else {
      AllowedConcat(a[1..], b);
      assert (a + b)[1..] == a[1..] + b;
    }
  }

  function PrivateCredit(p: Option<Bucket>, limit: nat, t: Time): int {
    match p case None => Capacity(limit) case Some(b) => Refilled(b, t)
  }

  /** One event: what is granted and what is left is covered by what was there and what was refilled. */
  lemma CreditStep(p: Option<Bucket>, e: Event, k: Key, limit: nat, t: Time)
    requires limit > 0 && t <= e.now
    requires p.Some? ==> BucketOk(p.value) && p.value.limit == limit
    ensures var own := e.Request? && e.id == k;
            var p' := PrivateNext(p, e, k, limit);
            && (p'.Some? ==> BucketOk(p'.value) && p'.value.limit == limit)
            && (if own && Allows(PrivateBucket(p, limit, e.now), e.now) then MINUTE else 0)
               + PrivateCredit(p', limit, e.now)
               <= PrivateCredit(p, limit, t) + limit * (e.now - t)
  {
    ProductMonotone(limit, 0, e.now - t);
    var b := PrivateBucket(p, limit, e.now);
    assert BucketOk(b) by { ProductMonotone(limit, 0, MINUTE); }
    TakeOk(b, e.now);
    RefillBounds(b, e.now);
    if p.Some? {
      RefillGrowth(b, t, e.now);
    }
    if e.Request? && e.id == k {
      var b' := Take(b, e.now);
      RefillBounds(b', e.now);
      assert limit * 0 == 0;
    }
  }

  lemma {:induction false} CreditRun(p: Option<Bucket>, events: seq<Event>, k: Key, limit: nat, t: Time)
    requires limit > 0 && Ordered(events, t)
    requires p.Some? ==> BucketOk(p.value) && p.value.limit == limit
    ensures Allowed(PrivateReplies(p, events, k, limit)) * MINUTE
            <= PrivateCredit(p, limit, t) + limit * (EndTime(events, t) - t)
    decreases |events|
  {
    if events == [] {
      if p.Some? {
        RefillBounds(p.value, t);
      }
      ProductMonotone(limit, 0, MINUTE);
    } else {
      var e := events[0];
      CreditStep(p, e, k, limit, t);
      var p' := PrivateNext(p, e, k, limit);
      CreditRun(p', events[1..], k, limit, e.now);
      var head := if e.Request? && e.id == k then [Answer(PrivateBucket(p, limit, e.now), e.now)] else [];
      AllowedConcat(head, PrivateReplies(p', events[1..], k, limit));
      assert limit * (e.now - t) + limit * (EndTime(events, t) - e.now) == limit * (EndTime(events, t) - t);
    }
  }

  lemma {:induction false} RunSplit(s: State, a: seq<Event>, b: seq<Event>)
    requires LegalRun(s, a + b)
    ensures LegalRun(s, a) && LegalRun(After(s, a), b)
    decreases |a|
  {
    if a == [] {
      assert a + b == b;
    } else {
      assert (a + b)[1..] == a[1..] + b;
      RunSplit(Next(s, a[0]), a[1..], b);
    }
  }

  /**
    Any window of any run, at any point of the history, grants a key of constant
    limit at most limit + limit * T / 60s requests, where T is the time from the
    first to the last event of the window.
  */
  lemma WindowBound(history: seq<Event>, window: seq<Event>, k: Key, limit: nat, start: Time)
    requires limit > 0 && window != []
    requires LegalRun(EMPTY, history + window) && Ordered(history + window, start)
    requires forall e | e in history + window :: Undisturbed(e, k, limit)
    ensures Allowed(Replies(After(EMPTY, history), window, k)) * MINUTE
            <= limit * MINUTE + limit * (window[|window| - 1].now - window[0].now)
  {
    HistoryAgrees(EMPTY, history, window, k, limit, start);
    AgreedWindow(After(EMPTY, history), PrivateAfter(None, history, k, limit), window, k, limit,
                 window[|window| - 1].now - window[0].now);
  }

  lemma HistoryAgrees(s: State, history: seq<Event>, window: seq<Event>, k: Key, limit: nat, start: Time)
    requires limit > 0 && window != [] && Agree(s, None, k, limit, start)
    requires LegalRun(s, history + window) && Ordered(history + window, start)
    requires forall e | e in history + window :: Undisturbed(e, k, limit)
    ensures LegalRun(After(s, history), window) && Ordered(window, window[0].now)
    ensures forall e | e in window :: Undisturbed(e, k, limit)
    ensures Agree(After(s, history), PrivateAfter(None, history, k, limit), k, limit, window[0].now)
  {
    var all := history + window;
    RunSplit(s, history, window);
    assert forall i | 0 <= i < |history| :: history[i] == all[i];
    assert forall i | 0 <= i < |window| :: window[i] == all[|history| + i];
    StillAgree(s, None, history, k, limit, start);
    assert EndTime(history, start) <= window[0].now;
    AgreeLater(After(s, history), PrivateAfter(None, history, k, limit), k, limit,
               EndTime(history, start), window[0].now);
  }

  lemma AgreedWindow(s: State, p: Option<Bucket>, window: seq<Event>, k: Key, limit: nat, span: Time)
    requires limit > 0 && window != [] && Agree(s, p, k, limit, window[0].now)
    requires LegalRun(s, window) && Ordered(window, window[0].now)
    requires forall e | e in window :: Undisturbed(e, k, limit)
    requires span == window[|window| - 1].now - window[0].now
    ensures Allowed(Replies(s, window, k)) * MINUTE <= limit * MINUTE + limit * span
  {
    CreditedWindow(p, window, k, limit, window[0].now, span);
    Simulation(s, p, window, k, limit, window[0].now);
  }

  lemma CreditedWindow(p: Option<Bucket>, window: seq<Event>, k: Key, limit: nat, from: Time, span: Time)
    requires limit > 0 && Ordered(window, from) && EndTime(window, from) - from == span
    requires p.Some? ==> BucketOk(p.value) && p.value.limit == limit
    ensures Allowed(PrivateReplies(p, window, k, limit)) * MINUTE <= limit * MINUTE + limit * span
  {
    CreditRun(p, window, k, limit, from);
    CreditAtMostFull(p, limit, from);
  }

  lemma CreditAtMostFull(p: Option<Bucket>, limit: nat, t: Time)
    requires p.Some? ==> BucketOk(p.value) && p.value.limit == limit
    ensures PrivateCredit(p, limit, t) <= limit * MINUTE
  {
    if p.Some? {
      RefillBounds(p.value, t);
    }
  }

  /**
    The constant limit is needed: a request whose limit differs from the stored
    one always finds a new, full bucket, however drained the old one was.
  */
  lemma ChangedLimitAlwaysAllowed(s: State, id: Key, limit: nat, now: Time)
    requires limit > 0 && !Hit(s[ShardIndex(id)], id, limit)
    ensures Reply(s, id, limit, now) == Response(true, limit - 1, (now + MINUTE) / SECOND)
  {
    FullIsFresh(FreshBucket(limit, now), now);
    assert limit * MINUTE / MINUTE == limit;
  }

  /** A request is refused exactly when its own limit's bucket is stored and has less than one token. */
  lemma GrantedIff(s: State, id: Key, limit: nat, now: Time)
    requires limit > 0
    ensures Reply(s, id, limit, now).allowed <==>
              (Hit(s[ShardIndex(id)], id, limit) ==> Allows(s[ShardIndex(id)][id].bucket, now))
  {
    FullIsFresh(FreshBucket(limit, now), now);
  }

  // ------------------------------------------------- which limits bound a burst

  /** Requests of k at one instant, their limits alternating. */
  function Alternating(k: Key, a: int, b: int, now: Time, n: nat): seq<Event>
    decreases n
  {
    if n == 0 then [] else [Request(k, a, now, None)] + Alternating(k, b, a, now, n - 1)
  }

  /** Neither of the two limits ever meets its own bucket: no limit at all, or the other one's bucket in the way. */
  predicate NeverMeets(a: int, b: int) {
    (a <= 0 && b == a) || (a > 0 && b > 0 && a != b)
  }

  lemma {:induction false} AlternatingAllGranted(s: State, k: Key, a: int, b: int, now: Time, n: nat)
    requires NeverMeets(a, b) && s[ShardIndex(k)].Keys <= {k}
    requires a > 0 ==> !Hit(s[ShardIndex(k)], k, a)
    ensures LegalRun(s, Alternating(k, a, b, now, n))
    ensures Allowed(Replies(s, Alternating(k, a, b, now, n), k)) == n
    decreases n
  {
    if n > 0 {
      AlternatingStep(s, k, a, b, now);
      var s' := Next(s, Request(k, a, now, None));
      AlternatingAllGranted(s', k, b, a, now, n - 1);
      var events := Alternating(k, a, b, now, n);
      assert events[0] == Request(k, a, now, None) && events[1..] == Alternating(k, b, a, now, n - 1);
      AllowedConcat([Reply(s, k, a, now)], Replies(s', events[1..], k));
    }
  }

  lemma AlternatingStep(s: State, k: Key, a: int, b: int, now: Time)
    requires NeverMeets(a, b) && s[ShardIndex(k)].Keys <= {k}
    requires a > 0 ==> !Hit(s[ShardIndex(k)], k, a)
    ensures Legal(s, Request(k, a, now, None)) && Reply(s, k, a, now).allowed
    ensures var s' := Next(s, Request(k, a, now, None));
            s'[ShardIndex(k)].Keys <= {k} && (b > 0 ==> !Hit(s'[ShardIndex(k)], k, b))
  {
    var m := s[ShardIndex(k)];
    SubsetSize(m.Keys, {k});
    assert |m| == |m.Keys| <= 1;
    if a > 0 {
      GrantedIff(s, k, a, now);
    }
  }

  /** All events at one instant, the requests of k under these limits, and k no victim of a forced eviction. */
  ghost predicate Burst(events: seq<Event>, now: Time, k: Key, limits: set<int>) {
    forall e | e in events ::
      e.now == now && (e.Request? ==> (e.id == k ==> e.limit in limits) && e.victim != Some(k))
  }

  /** Whatever the run, a burst under these limits grants k no more than that. */
  ghost predicate BurstsBounded(s: State, k: Key, limits: set<int>, most: int) {
    forall events, now | LegalRun(s, events) && Burst(events, now, k, limits) ::
      Allowed(Replies(s, events, k)) <= most
  }

  lemma {:induction false} AlternatingIsBurst(k: Key, a: int, b: int, now: Time, n: nat, limits: set<int>)
    requires a in limits && b in limits
    ensures Burst(Alternating(k, a, b, now, n), now, k, limits)
    decreases n
  {
    if n > 0 {
      AlternatingIsBurst(k, b, a, now, n - 1, limits);
    }
  }

  lemma OneLimitBounds(s: State, k: Key, limit: nat, limits: set<int>)
    requires limit > 0 && (forall a | a in limits :: a == limit) && k !in s[ShardIndex(k)]
    ensures BurstsBounded(s, k, limits, limit)
  {
    forall events, now | LegalRun(s, events) && Burst(events, now, k, limits)
      ensures Allowed(Replies(s, events, k)) <= limit
    {
      OneLimitBurst(s, events, now, k, limit, limits);
    }
  }

  lemma OneLimitBurst(s: State, events: seq<Event>, now: Time, k: Key, limit: nat, limits: set<int>)
    requires limit > 0 && (forall a | a in limits :: a == limit) && k !in s[ShardIndex(k)]
    requires LegalRun(s, events) && Burst(events, now, k, limits)
    ensures Allowed(Replies(s, events, k)) <= limit
  {
    if events != [] {
      BurstIsOrdered(events, now, k, limit, limits);
      AgreedWindow(s, None, events, k, limit, 0);
      NoTimeNoRefill(Allowed(Replies(s, events, k)), limit, 0);
    }
  }

  lemma NoTimeNoRefill(granted: nat, limit: nat, span: int)
    requires span == 0 && granted * MINUTE <= limit * MINUTE + limit * span
    ensures granted <= limit
  {}

  lemma BurstIsOrdered(events: seq<Event>, now: Time, k: Key, limit: nat, limits: set<int>)
    requires (forall a | a in limits :: a == limit) && Burst(events, now, k, limits)
    ensures Ordered(events, now) && forall e | e in events :: Undisturbed(e, k, limit)
    ensures forall i | 0 <= i < |events| :: events[i].now == now
  {
    assert forall i | 0 <= i < |events| :: events[i] in events;
  }

  lemma TwoLimitsDoNot(k: Key, a: int, b: int, limits: set<int>, most: int)
    requires a in limits && b in limits && NeverMeets(a, b)
    ensures !BurstsBounded(EMPTY, k, limits, most)
  {
    var n: nat := if most < 0 then 0 else most + 1;
    AlternatingAllGranted(EMPTY, k, a, b, 0, n);
    AlternatingIsBurst(k, a, b, 0, n, limits);
    assert LegalRun(EMPTY, Alternating(k, a, b, 0, n)) && Burst(Alternating(k, a, b, 0, n), 0, k, limits);
  }

  predicate OneLimit(limits: set<int>) {
    (forall a | a in limits :: a > 0) && forall a, b | a in limits && b in limits :: a == b
  }

  /**
    What a key can be granted at one instant is bounded if and only if all its requests
    carry the same, positive limit: two limits in turn, or none, grant any number.
  */
  lemma BoundedIffOneLimit(k: Key, limits: set<int>)
    ensures (exists most :: BurstsBounded(EMPTY, k, limits, most)) <==> OneLimit(limits)
  {
    if a, b :| a in limits && b in limits && NeverMeets(a, b) {
      forall most
        ensures !BurstsBounded(EMPTY, k, limits, most)
      {
        TwoLimitsDoNot(k, a, b, limits, most);
      }
    } else {
      var limit: nat := if a :| a in limits && a > 0 then a else 1;
      forall a | a in limits
        ensures a > 0 && a == limit
      {
        assert !NeverMeets(a, a) && !NeverMeets(a, limit);
      }
      OneLimitBounds(EMPTY, k, limit, limits);
    }
  }

  // -------------------------------------------------- when a request is refused

  /** Request j of the history is one of k, and was granted. */
  ghost predicate Granted(s: State, history: seq<Event>, j: nat, k: Key)
    requires j < |history|
  {
    var e := history[j];
    e.Request? && e.id == k && Reply(After(s, history[..j]), k, e.limit, e.now).allowed
  }

  /** How many requests of k among those from i to n were granted. */
  ghost function Grants(s: State, history: seq<Event>, i: nat, n: nat, k: Key): nat
    requires i <= n <= |history|
  {
    if n == i then 0 else Grants(s, history, i, n - 1, k) + (if Granted(s, history, n - 1, k) then 1 else 0)
  }

  /** What the window from event i to now leaves of the limit and its refill, in units of one token by MINUTE. */
  ghost function Slack(s: State, history: seq<Event>, i: nat, n: nat, k: Key, limit: nat, now: Time): int
    requires i < n <= |history|
  {
    limit * MINUTE + limit * (now - history[i].now) - Grants(s, history, i, n, k) * MINUTE
  }

  /** One more grant would take the window from event i to now over the limit and what it refills. */
  ghost predicate WindowFull(s: State, history: seq<Event>, i: nat, k: Key, limit: nat, now: Time)
    requires i < |history|
  {
    (Grants(s, history, i, |history|, k) + 1) * MINUTE > limit * MINUTE + limit * (now - history[i].now)
  }

  /** c is the least that any window into the first n events leaves, and no more than the limit. */
  ghost predicate LeastSlack(s: State, history: seq<Event>, n: nat, k: Key, limit: nat, now: Time, c: int)
    requires n <= |history|
  {
    && c <= limit * MINUTE
    && (forall i | 0 <= i < n :: c <= Slack(s, history, i, n, k, limit, now))
    && (c == limit * MINUTE || exists i | 0 <= i < n :: c == Slack(s, history, i, n, k, limit, now))
  }

  function Least(a: int, b: int): int {
    if a <= b then a else b
  }

  lemma SlackLater(s: State, history: seq<Event>, i: nat, n: nat, k: Key, limit: nat, t: Time, now: Time)
    requires i < n <= |history|
    ensures Slack(s, history, i, n, k, limit, now) == Slack(s, history, i, n, k, limit, t) + limit * (now - t)
  {
    var u := history[i].now;
    assert limit * (now - u) == limit * (t - u) + limit * (now - t);
  }

  lemma LeastSlackLater(s: State, history: seq<Event>, n: nat, k: Key, limit: nat, t: Time, now: Time, c: int)
    requires n <= |history| && t <= now && LeastSlack(s, history, n, k, limit, t, c)
    ensures LeastSlack(s, history, n, k, limit, now, Least(limit * MINUTE, c + limit * (now - t)))
  {
    ProductMonotone(limit, 0, now - t);
    forall i: nat | i < n
      ensures Slack(s, history, i, n, k, limit, now) == Slack(s, history, i, n, k, limit, t) + limit * (now - t)
    {
      SlackLater(s, history, i, n, k, limit, t, now);
    }
    if c < limit * MINUTE {
      var i :| 0 <= i < n && c == Slack(s, history, i, n, k, limit, t);
      assert c + limit * (now - t) == Slack(s, history, i, n, k, limit, now);
    }
  }

  lemma OneMoreEvent(s: State, history: seq<Event>, n: nat, k: Key, limit: nat, c: int)
    requires n < |history| && LeastSlack(s, history, n, k, limit, history[n].now, c)
    ensures LeastSlack(s, history, n + 1, k, limit, history[n].now,
                       c - (if Granted(s, history, n, k) then MINUTE else 0))
  {
    var m, t, g := n + 1, history[n].now, if Granted(s, history, n, k) then MINUTE else 0;
    forall i: nat | i < n
      ensures Slack(s, history, i, m, k, limit, t) == Slack(s, history, i, n, k, limit, t) - g
    {}
    assert Slack(s, history, n, m, k, limit, t) == limit * MINUTE - g by {
      assert limit * (t - t) == 0;
      assert Grants(s, history, n, n, k) == 0;
    }
    forall i: nat | i < m
      ensures c - g <= Slack(s, history, i, m, k, limit, t)
    {
      if i < n {
        assert c <= Slack(s, history, i, n, k, limit, t);
      }
    }
    if c < limit * MINUTE {
      var i :| 0 <= i < n && c == Slack(s, history, i, n, k, limit, t);
      assert c - g == Slack(s, history, i, m, k, limit, t);
    } else {
      assert c - g == Slack(s, history, n, m, k, limit, t);
    }
  }

  /** Credit is kept, and grows by the limit per nanosecond until the bucket is full. */
  lemma RefillAdds(b: Bucket, t: Time, now: Time)
    requires BucketOk(b) && b.last <= t <= now
    ensures Refilled(b, now) == Least(Capacity(b.limit), Refilled(b, t) + b.limit * (now - t))
  {
    assert b.limit * (now - b.last) == b.limit * (t - b.last) + b.limit * (now - t);
    ProductMonotone(b.limit, 0, now - t);
  }

  ghost predicate PrivateOk(p: Option<Bucket>, limit: nat, t: Time) {
    p.Some? ==> BucketOk(p.value) && p.value.limit == limit && p.value.last <= t
  }

  lemma NextCredit(p: Option<Bucket>, e: Event, k: Key, limit: nat, now: Time)
    requires limit > 0 && PrivateOk(p, limit, e.now) && e.now <= now
    ensures var granted := e.Request? && e.id == k && PrivateCredit(p, limit, e.now) >= MINUTE;
            var p' := PrivateNext(p, e, k, limit);
            && PrivateOk(p', limit, e.now)
            && PrivateCredit(p', limit, now) == Least(limit * MINUTE,
                 PrivateCredit(p, limit, e.now) - (if granted then MINUTE else 0) + limit * (now - e.now))
  {
    var b := PrivateBucket(p, limit, e.now);
    assert BucketOk(b) by { ProductMonotone(limit, 0, MINUTE); }
    assert limit * 0 == 0;
    RefillBounds(b, e.now);
    ProductMonotone(limit, 0, now - e.now);
    RefillAdds(b, e.now, now);
    if e.Request? && e.id == k {
      TakeOk(b, e.now);
      RefillAdds(Take(b, e.now), e.now, now);
    }
  }

  lemma {:induction false} PrivateOneMore(p: Option<Bucket>, events: seq<Event>, e: Event, k: Key, limit: nat)
    ensures PrivateAfter(p, events + [e], k, limit) == PrivateNext(PrivateAfter(p, events, k, limit), e, k, limit)
    decreases |events|
  {
    var all := events + [e];
    if events == [] {
      assert all[1..] == [];
    } else {
      assert all[1..] == events[1..] + [e];
      PrivateOneMore(PrivateNext(p, events[0], k, limit), events[1..], e, k, limit);
    }
  }

  lemma GrantedByCredit(s: State, history: seq<Event>, j: nat, k: Key, limit: nat, start: Time)
    requires limit > 0 && j < |history| && Agree(s, None, k, limit, start)
    requires LegalRun(s, history) && Ordered(history, start)
    requires forall e | e in history :: Undisturbed(e, k, limit)
    ensures var e, p := history[j], PrivateAfter(None, history[..j], k, limit);
            Granted(s, history, j, k) <==> e.Request? && e.id == k && PrivateCredit(p, limit, e.now) >= MINUTE
  {
    var e, p := history[j], PrivateAfter(None, history[..j], k, limit);
    assert history[..j] + history[j..] == history;
    HistoryAgrees(s, history[..j], history[j..], k, limit, start);
    assert history[j..][0] == e && e in history;
    if e.Request? && e.id == k {
      AnsweredByCredit(After(s, history[..j]), p, k, limit, e.now);
    }
  }

  lemma {:induction false} CreditIsLeastSlack(s: State, history: seq<Event>, n: nat, k: Key, limit: nat,
                                              start: Time, now: Time)
    requires limit > 0 && n <= |history| && Agree(s, None, k, limit, start)
    requires LegalRun(s, history) && Ordered(history, start) && start <= now && (n > 0 ==> history[n - 1].now <= now)
    requires forall e | e in history :: Undisturbed(e, k, limit)
    ensures var p := PrivateAfter(None, history[..n], k, limit);
            PrivateOk(p, limit, now) && LeastSlack(s, history, n, k, limit, now, PrivateCredit(p, limit, now))
    decreases n
  {
    if n > 0 {
      CreditIsLeastSlack(s, history, n - 1, k, limit, start, history[n - 1].now);
      CreditStaysLeast(s, history, n - 1, k, limit, start, now);
    }
  }

  lemma CreditStaysLeast(s: State, history: seq<Event>, m: nat, k: Key, limit: nat, start: Time, now: Time)
    requires limit > 0 && m < |history| && Agree(s, None, k, limit, start)
    requires LegalRun(s, history) && Ordered(history, start) && history[m].now <= now
    requires forall e | e in history :: Undisturbed(e, k, limit)
    requires var p, t := PrivateAfter(None, history[..m], k, limit), history[m].now;
             PrivateOk(p, limit, t) && LeastSlack(s, history, m, k, limit, t, PrivateCredit(p, limit, t))
    ensures var p := PrivateAfter(None, history[..m + 1], k, limit);
            PrivateOk(p, limit, now) && LeastSlack(s, history, m + 1, k, limit, now, PrivateCredit(p, limit, now))
  {
    var e, p := history[m], PrivateAfter(None, history[..m], k, limit);
    GrantedByCredit(s, history, m, k, limit, start);
    NextCredit(p, e, k, limit, now);
    assert history[..m + 1] == history[..m] + [e];
    PrivateOneMore(None, history[..m], e, k, limit);
    LeastSlackOneMore(s, history, m, k, limit, now, PrivateCredit(p, limit, e.now),
                      PrivateCredit(PrivateNext(p, e, k, limit), limit, now));
  }

  lemma LeastSlackOneMore(s: State, history: seq<Event>, m: nat, k: Key, limit: nat, now: Time,
                          c: int, c': int)
    requires m < |history| && history[m].now <= now && LeastSlack(s, history, m, k, limit, history[m].now, c)
    requires c' == Least(limit * MINUTE,
                         c - (if Granted(s, history, m, k) then MINUTE else 0) + limit * (now - history[m].now))
    ensures LeastSlack(s, history, m + 1, k, limit, now, c')
  {
    OneMoreEvent(s, history, m, k, limit, c);
    LeastSlackLater(s, history, m + 1, k, limit, history[m].now, now,
                    c - (if Granted(s, history, m, k) then MINUTE else 0));
  }

  /**
    For a key of constant limit that is not forced out: a request is refused if and only if
    some window that ends with it already holds so many grants that one more would be over
    the limit and what the window refills.
  */
  lemma RefusedIffWindowFull(s: State, history: seq<Event>, k: Key, limit: nat, start: Time, now: Time)
    requires limit > 0 && k !in s[ShardIndex(k)]
    requires LegalRun(s, history) && Ordered(history, start) && EndTime(history, start) <= now
    requires forall e | e in history :: Undisturbed(e, k, limit)
    ensures !Reply(After(s, history), k, limit, now).allowed <==>
              exists i | 0 <= i < |history| :: WindowFull(s, history, i, k, limit, now)
  {
    var n, p := |history|, PrivateAfter(None, history, k, limit);
    assert history[..n] == history;
    assert start <= now by { if n > 0 { assert start <= history[n - 1].now; } }
    CreditIsLeastSlack(s, history, n, k, limit, start, now);
    StillAgree(s, None, history, k, limit, start);
    AgreeLater(After(s, history), p, k, limit, EndTime(history, start), now);
    AnsweredByCredit(After(s, history), p, k, limit, now);
    RefusedBySlack(s, history, k, limit, now, PrivateCredit(p, limit, now));
  }

  lemma AnsweredByCredit(s: State, p: Option<Bucket>, k: Key, limit: nat, now: Time)
    requires limit > 0 && Agree(s, p, k, limit, now)
    ensures Reply(s, k, limit, now).allowed <==> PrivateCredit(p, limit, now) >= MINUTE
  {
    ProductMonotone(limit - 1, 0, MINUTE);
    assert limit * 0 == 0;
    if k !in s[ShardIndex(k)] && p.Some? {
      FullIsFresh(p.value, now);
    }
  }

  lemma RefusedBySlack(s: State, history: seq<Event>, k: Key, limit: nat, now: Time, c: int)
    requires limit > 0 && LeastSlack(s, history, |history|, k, limit, now, c)
    ensures c < MINUTE <==>
              exists i | 0 <= i < |history| :: WindowFull(s, history, i, k, limit, now)
  {
    ProductMonotone(limit - 1, 0, MINUTE);
    if c < MINUTE {
      var i :| 0 <= i < |history| && c == Slack(s, history, i, |history|, k, limit, now);
      assert WindowFull(s, history, i, k, limit, now);
    } else {
      forall i | 0 <= i < |history|
        ensures !WindowFull(s, history, i, k, limit, now)
      {
        assert c <= Slack(s, history, i, |history|, k, limit, now);
      }
    }
  }

  // ------------------------------------------------------- what remaining counts

  /** n requests of k at one instant. */
  function Repeated(k: Key, limit: int, now: Time, n: nat): seq<Event>
    decreases n
  {
    if n == 0 then [] else [Request(k, limit, now, None)] + Repeated(k, limit, now, n - 1)
  }

  lemma {:induction false} RepeatedGranted(s: State, k: Key, limit: nat, now: Time, n: nat)
    requires limit > 0 && Hit(s[ShardIndex(k)], k, limit) && BucketOk(s[ShardIndex(k)][k].bucket)
    ensures LegalRun(s, Repeated(k, limit, now, n))
    ensures Allowed(Replies(s, Repeated(k, limit, now, n), k)) ==
            Least(n, Refilled(s[ShardIndex(k)][k].bucket, now) / MINUTE)
    decreases n
  {
    var b := s[ShardIndex(k)][k].bucket;
    RefillBounds(b, now);
    if n > 0 {
      var e := Request(k, limit, now, None);
      var s' := Next(s, e);
      TakeOk(b, now);
      assert s'[ShardIndex(k)][k].bucket == Take(b, now);
      RepeatedGranted(s', k, limit, now, n - 1);
      RefillBounds(Take(b, now), now);
      assert Allows(b, now) ==> Refilled(Take(b, now), now) == Refilled(b, now) - MINUTE by { assert b.limit * 0 == 0; }
      var events := Repeated(k, limit, now, n);
      assert events[0] == e && events[1..] == Repeated(k, limit, now, n - 1);
      AllowedConcat([Reply(s, k, limit, now)], Replies(s', events[1..], k));
    }
  }

  /**
    What a reply reports as remaining is how many of any further requests at the same
    instant will be granted; and the reset is one minute on, in whole seconds.
  */
  lemma RemainingCounts(s: State, k: Key, limit: nat, now: Time, victim: Option<Key>, n: nat)
    requires limit > 0 && Valid(s) && Legal(s, Request(k, limit, now, victim))
    ensures var r, s' := Reply(s, k, limit, now), Next(s, Request(k, limit, now, victim));
            && LegalRun(s', Repeated(k, limit, now, n))
            && Allowed(Replies(s', Repeated(k, limit, now, n), k)) == Least(n, r.remaining)
            && r.resetEpoch * SECOND <= now + MINUTE < (r.resetEpoch + 1) * SECOND
  {
    var b, s' := Serving(s[ShardIndex(k)], k, limit, now), Next(s, Request(k, limit, now, victim));
    assert BucketOk(b) by { ProductMonotone(limit, 0, MINUTE); assert ValidTable(s[ShardIndex(k)], ShardIndex(k)); }
    TakeOk(b, now);
    RefillBounds(b, now);
    assert s'[ShardIndex(k)][k].bucket == Take(b, now);
    RepeatedGranted(s', k, limit, now, n);
    RefillBounds(Take(b, now), now);
    assert Allows(b, now) ==> Refilled(Take(b, now), now) == Refilled(b, now) - MINUTE by { assert b.limit * 0 == 0; }
  }

  /** A caller without a limit is always let through, and leaves no trace. */
  lemma NoLimitNoBucket(s: State, k: Key, limit: int, now: Time)
    requires limit <= 0
    ensures Reply(s, k, limit, now).allowed && Next(s, Request(k, limit, now, None)) == s
  {}
}

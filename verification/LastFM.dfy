/**
  The Last.fm client (internal/service/lastfm.go): one map caches two kinds of
  answers, answers from it while they are fresh, and falls back on a stale answer
  when the upstream, or the circuit breaker in front of it, fails.
*/
module LastFM {
  import opened Text
  import opened Wrappers

  type Time = int

  const TRACKS_TTL := 30
  const USER_TTL := 600

  datatype Request = TracksOf(username: string, limit: int) | UserOf(username: string)

  /** What the map holds; the two response types are told apart only by a type assertion. */
  datatype Data = TracksBody(tracks: string) | UserBody(user: string)

  datatype Error = MissingAPIKey | Upstream(status: int, message: string) | BreakerOpen | Transport

  datatype Item = Item(data: Data, expiresAt: Time)

  function Key(r: Request): string {
    match r
    case TracksOf(username, limit) => "tracks:" + username + ":" + Itoa(limit)
    case UserOf(username) => "user:" + username
  }

  function Ttl(r: Request): int {
    if r.TracksOf? then TRACKS_TTL else USER_TTL
  }

  function BodyFor(r: Request, body: string): Data {
    if r.TracksOf? then TracksBody(body) else UserBody(body)
  }

  // ---------------------------------------------------------------- the keys

  lemma NoColon(n: int)
    ensures ':' !in Itoa(n)
  {
    forall i | 0 <= i < |Itoa(n)|
      ensures Itoa(n)[i] == '-' || IsDigit(Itoa(n)[i])
    {
      var d := Decimal(if n < 0 then -n else n);
      if n < 0 && i > 0 {
        assert Itoa(n)[i] == d[i - 1];
      }
    }
  }

  lemma ColonAt(u: string, d: string)
    requires ':' !in d
    ensures var s := u + ":" + d; s[|u|] == ':' && forall j | |u| < j < |s| :: s[j] != ':'
  {
    var s := u + ":" + d;
    assert forall j | |u| < j < |s| :: s[j] == d[j - |u| - 1];
  }

  /** A text is split in one way at its last colon. */
  lemma LastColon(u: string, d: string, v: string, e: string)
    requires u + ":" + d == v + ":" + e && ':' !in d && ':' !in e
    ensures u == v && d == e
  {
    ColonAt(u, d);
    ColonAt(v, e);
    var s := u + ":" + d;
    assert |u| == |v|;
    assert u == s[..|u|] && v == s[..|v|] && d == s[|u| + 1..] && e == s[|v| + 1..];
  }

  lemma FirstLetter(r: Request)
    ensures Key(r)[0] == if r.TracksOf? then 't' else 'u'
  {}

  lemma TracksKeyInjective(u: string, m: int, v: string, n: int)
    requires Key(TracksOf(u, m)) == Key(TracksOf(v, n))
    ensures u == v && m == n
  {
    var k, l := Key(TracksOf(u, m)), Key(TracksOf(v, n));
    assert k[7..] == u + ":" + Itoa(m);
    assert l[7..] == v + ":" + Itoa(n);
    NoColon(m);
    NoColon(n);
    LastColon(u, Itoa(m), v, Itoa(n));
    ItoaInjective(m, n);
  }

  /** No two requests share an entry of the map. */
  lemma KeyInjective(a: Request, b: Request)
    requires Key(a) == Key(b)
    ensures a == b
  {
    FirstLetter(a);
    FirstLetter(b);
    if a.TracksOf? {
      TracksKeyInjective(a.username, a.limit, b.username, b.limit);
    } else {
      assert Key(a)[5..] == a.username;
      assert Key(b)[5..] == b.username;
    }
  }

  // ------------------------------------------------------- a cache per request

  /** One call: the clock when it looks in the cache, the clock when it stores, and what the breaker would return. */
  datatype Call = Call(request: Request, now: Time, storedAt: Time, upstream: Result<string, Error>)

  predicate Fresh(caches: map<Request, Item>, r: Request, now: Time) {
    r in caches && now < caches[r].expiresAt
  }

  /** The reply of a client that keeps every request's answer in a place of its own. */
  function Reply(caches: map<Request, Item>, c: Call): Result<Data, Error> {
    if Fresh(caches, c.request, c.now) then Ok(caches[c.request].data)
    else if c.upstream.Ok? then Ok(BodyFor(c.request, c.upstream.value))
    else if c.request in caches then Ok(caches[c.request].data)
    else Err(c.upstream.error)
  }

  function AfterCall(caches: map<Request, Item>, c: Call): map<Request, Item> {
    if Fresh(caches, c.request, c.now) || c.upstream.Err? then caches
    else caches[c.request := Item(BodyFor(c.request, c.upstream.value), c.storedAt + Ttl(c.request))]
  }

  /** What a getter returns, as a reply to its request. */
  function Typed(r: Request, res: Result<string, Error>): Result<Data, Error> {
    if res.Ok? then Ok(BodyFor(r, res.value)) else Err(res.error)
  }

  /** The getter does with the caches, the breaker and its caller what the client with private caches does. */
  ghost predicate Replies(before: map<Request, Item>, caches: map<Request, Item>, c: Call,
                          res: Result<string, Error>, called: bool) {
    && caches == AfterCall(before, c)
    && (called <==> !Fresh(before, c.request, c.now))
    && Typed(c.request, res) == Reply(before, c)
  }

  /**
    The breaker is asked unless there is an answer that has not expired. What it returns
    is answered and kept, tracks for 30 seconds and users for 600; otherwise nothing is
    stored, what there is serves, however old, and only without any is the failure shown.
  */
  ghost predicate Outcome(before: map<Request, Item>, after: map<Request, Item>, c: Call,
                          res: Result<string, Error>, called: bool) {
    var r := c.request;
    && (called <==> (r in before ==> before[r].expiresAt <= c.now))
    && (if called && c.upstream.Ok? then
          && res == c.upstream
          && after == before[r := if r.TracksOf? then Item(TracksBody(c.upstream.value), c.storedAt + 30)
                                  else Item(UserBody(c.upstream.value), c.storedAt + 600)]
        else
          && after == before
          && (r in before ==>
                res.Ok? && before[r].data == if r.TracksOf? then TracksBody(res.value) else UserBody(res.value))
          && (r !in before ==> res == c.upstream))
  }

  class Service {
    const apiKey: string
    var cache: map<string, Item>
    /** What each request has in the map. */
    ghost var caches: map<Request, Item>

    constructor (apiKey: string)
      ensures this.apiKey == apiKey && caches == map[] && Valid()
    {
      this.apiKey := apiKey;
      cache, caches := map[], map[];
    }

    /** The shared map holds what the requests have, each under its key, and of its type. */
    ghost predicate Valid()
      reads this
    {
      && (forall r | r in caches ::
            Key(r) in cache && cache[Key(r)] == caches[r] && caches[r].data.TracksBody? == r.TracksOf?)
      && (forall k | k in cache :: exists r | r in caches :: Key(r) == k)
    }

    /** One look into the map, under the lock. */
    method Get(r: Request) returns (item: Option<Item>)
      requires Valid()
      ensures item == if r in caches then Some(caches[r]) else None
      ensures item.Some? ==> item.value.data.TracksBody? == r.TracksOf?
    {
      var cacheKey := Key(r);
      if cacheKey !in cache {
        return None;
      }
      ghost var q :| q in caches && Key(q) == cacheKey;
      KeyInjective(q, r);
      return Some(cache[cacheKey]);
    }

    method Put(r: Request, item: Item)
      requires Valid() && item.data.TracksBody? == r.TracksOf?
      modifies this
      ensures Valid() && caches == old(caches)[r := item]
    {
      cache, caches := cache[Key(r) := item], caches[r := item];
      forall q | q in caches
        ensures Key(q) in cache && cache[Key(q)] == caches[q]
      {
        if Key(q) == Key(r) {
          KeyInjective(q, r);
        }
      }
      forall k | k in cache
        ensures exists q | q in caches :: Key(q) == k
      {
        if k != Key(r) {
          var q :| q in old(caches) && Key(q) == k;
          assert q in caches;
        }
      }
    }

    /** The breaker, and what follows it: a new answer is stored, a failure falls back on what there is. */
    method Ask(r: Request, now: Time, storedAt: Time, upstream: Result<string, Error>)
      returns (res: Result<Data, Error>)
      requires Valid() && !Fresh(caches, r, now)
      modifies this
      ensures Valid()
      ensures var c := Call(r, now, storedAt, upstream);
              caches == AfterCall(old(caches), c) && res == Reply(old(caches), c)
      ensures res.Ok? ==> res.value.TracksBody? == r.TracksOf?
    {
      if upstream.Err? {
        var item := Get(r);
        if item.Some? {
          return Ok(item.value.data);
        }
        return Err(upstream.error);
      }
      var result := BodyFor(r, upstream.value);
      Put(r, Item(result, storedAt + Ttl(r)));
      return Ok(result);
    }

    /** called says whether the breaker was asked. */
    method GetRecentTracks(username: string, limit: int, now: Time, storedAt: Time, upstream: Result<string, Error>)
      returns (res: Result<string, Error>, called: bool)
      requires Valid()
      modifies this
      ensures Valid()
      ensures apiKey == "" ==> res == Err(MissingAPIKey) && !called && caches == old(caches)
      ensures apiKey != "" ==>
                Replies(old(caches), caches, Call(TracksOf(username, limit), now, storedAt, upstream), res, called)
      ensures apiKey != "" ==>
                Outcome(old(caches), caches, Call(TracksOf(username, limit), now, storedAt, upstream), res, called)
    {
      if apiKey == "" {
        return Err(MissingAPIKey), false;
      }
      var r := TracksOf(username, limit);
      var item := Get(r);
      if item.Some? && now < item.value.expiresAt {
        return Ok(item.value.data.tracks), false;
      }
      var body := Ask(r, now, storedAt, upstream);
      if body.Err? {
        return Err(body.error), true;
      }
      return Ok(body.value.tracks), true;
    }

    method GetUserInfo(username: string, now: Time, storedAt: Time, upstream: Result<string, Error>)
      returns (res: Result<string, Error>, called: bool)
      requires Valid()
      modifies this
      ensures Valid()
      ensures apiKey == "" ==> res == Err(MissingAPIKey) && !called && caches == old(caches)
      ensures apiKey != "" ==>
                Replies(old(caches), caches, Call(UserOf(username), now, storedAt, upstream), res, called)
      ensures apiKey != "" ==>
                Outcome(old(caches), caches, Call(UserOf(username), now, storedAt, upstream), res, called)
    {
      if apiKey == "" {
        return Err(MissingAPIKey), false;
      }
      var r := UserOf(username);
      var item := Get(r);
      if item.Some? && now < item.value.expiresAt {
        return Ok(item.value.data.user), false;
      }
      var body := Ask(r, now, storedAt, upstream);
      if body.Err? {
        return Err(body.error), true;
      }
      return Ok(body.value.user), true;
    }
  }

  // ------------------------------------------------------------ whole runs

  function After(calls: seq<Call>): map<Request, Item>
    decreases |calls|
  {
    if calls == [] then map[] else AfterCall(After(calls[..|calls| - 1]), calls[|calls| - 1])
  }

  /** The reply to the i-th call of a run. */
  function ReplyAt(calls: seq<Call>, i: nat): Result<Data, Error>
    requires i < |calls|
  {
    Reply(After(calls[..i]), calls[i])
  }

  /** The place of the last call for r that was answered, or -1. */
  function LastAnswered(calls: seq<Call>, r: Request): (i: int)
    ensures -1 <= i < |calls|
    ensures i >= 0 ==> calls[i].request == r
    decreases |calls|
  {
    if calls == [] then -1
    else
      var n := |calls| - 1;
      if calls[n].request == r && ReplyAt(calls, n).Ok? then n else LastAnswered(calls[..n], r)
  }

  lemma {:induction false} CacheIsLastAnswer(calls: seq<Call>, r: Request)
    ensures var i := LastAnswered(calls, r);
            if i == -1 then r !in After(calls)
            else r in After(calls) && ReplyAt(calls, i) == Ok(After(calls)[r].data)
    decreases |calls|
  {
    if calls != [] {
      var n := |calls| - 1;
      CacheIsLastAnswer(calls[..n], r);
      var i := LastAnswered(calls[..n], r);
      if i >= 0 {
        assert calls[..n][..i] == calls[..i];
      }
    }
  }

  /**
    Over any run, a request that has been answered once is never refused again: unless
    the upstream has just answered anew, it gets the last answer it was given.
  */
  lemma StaleRatherThanError(calls: seq<Call>, c: Call)
    ensures var i := LastAnswered(calls, c.request);
            if c.upstream.Ok? && !Fresh(After(calls), c.request, c.now)
            then Reply(After(calls), c) == Ok(BodyFor(c.request, c.upstream.value))
            else if i >= 0 then Reply(After(calls), c) == ReplyAt(calls, i)
            else c.upstream.Err? && Reply(After(calls), c) == Err(c.upstream.error)
  {
    CacheIsLastAnswer(calls, c.request);
  }

  /** The last time an answer for r came from upstream, if ever. */
  function LastFetched(calls: seq<Call>, r: Request): Option<Time>
    decreases |calls|
  {
    if calls == [] then None
    else
      var n := |calls| - 1;
      if calls[n].request == r && calls[n].upstream.Ok? && !Fresh(After(calls[..n]), r, calls[n].now)
      then Some(calls[n].storedAt)
      else LastFetched(calls[..n], r)
  }

  /** The breaker is left alone exactly while the last answer from upstream is younger than its time to live. */
  lemma {:induction false} FreshMeansYoung(calls: seq<Call>, r: Request, now: Time)
    ensures Fresh(After(calls), r, now) <==>
              && LastFetched(calls, r).Some?
              && now < LastFetched(calls, r).value + if r.TracksOf? then 30 else 600
    ensures r in After(calls) <==> LastFetched(calls, r).Some?
    decreases |calls|
  {
    if calls != [] {
      FreshMeansYoung(calls[..|calls| - 1], r, now);
    }
  }

  function CallsFor(calls: seq<Call>, r: Request): seq<Call>
    decreases |calls|
  {
    if calls == [] then []
    else
      var n := |calls| - 1;
      CallsFor(calls[..n], r) + if calls[n].request == r then [calls[n]] else []
  }

  predicate SameFor(r: Request, a: map<Request, Item>, b: map<Request, Item>) {
    (r in a <==> r in b) && (r in a ==> a[r] == b[r])
  }

  lemma CallStaysSame(r: Request, a: map<Request, Item>, b: map<Request, Item>, c: Call)
    requires SameFor(r, a, b)
    ensures if c.request == r then SameFor(r, AfterCall(a, c), AfterCall(b, c)) else SameFor(r, AfterCall(a, c), b)
  {}

  /** Though they share one map, requests do not influence each other: only a request's own calls decide its replies. */
  lemma {:induction false} OwnCallsDecide(calls: seq<Call>, r: Request)
    ensures SameFor(r, After(calls), After(CallsFor(calls, r)))
    decreases |calls|
  {
    if calls != [] {
      var n := |calls| - 1;
      var own := CallsFor(calls[..n], r);
      OwnCallsDecide(calls[..n], r);
      CallStaysSame(r, After(calls[..n]), After(own), calls[n]);
      if calls[n].request == r {
        assert (own + [calls[n]])[..|own|] == own;
      } else {
        assert CallsFor(calls, r) == own;
      }
    }
  }

  lemma RepliesAreOwn(calls: seq<Call>, c: Call)
    ensures Reply(After(calls), c) == Reply(After(CallsFor(calls, c.request)), c)
  {
    OwnCallsDecide(calls, c.request);
  }
}

/**
  Following the logs (internal/grpc/server/log.go StreamLogs): every second the
  newest fifty matching rows are fetched, those stamped after the watermark are sent
  oldest first, and the watermark moves up to the newest of them.
*/
module LogStream {
  import opened Sets
  import opened Wrappers

  type Time = int

  datatype Log = Log(id: string, timestamp: Time)

  const WINDOW := 50

  function Reversed(s: seq<Log>): seq<Log> {
    if s == [] then [] else Reversed(s[1..]) + [s[0]]
  }

  function NewerThan(logs: seq<Log>, seen: Time): seq<Log> {
    if logs == [] then []
    else
      var n := |logs| - 1;
      NewerThan(logs[..n], seen) + if logs[n].timestamp > seen then [logs[n]] else []
  }

  function Latest(logs: seq<Log>, seen: Time): Time {
    if logs == [] then seen
    else
      var n := |logs| - 1;
      var t := Latest(logs[..n], seen);
      if logs[n].timestamp > t then logs[n].timestamp else t
  }

  /** What one poll sends. */
  function Batch(poll: Option<seq<Log>>, seen: Time): seq<Log> {
    if poll.None? then [] else Reversed(NewerThan(poll.value, seen))
  }

  type Polls = seq<Option<seq<Log>>>

  /** The watermark, and everything sent so far. */
  datatype Progress = Progress(seen: Time, sent: seq<Log>)

  function AfterPoll(p: Progress, poll: Option<seq<Log>>): Progress {
    var batch := Batch(poll, p.seen);
    Progress(Latest(batch, p.seen), p.sent + batch)
  }

  function Follow(p: Progress, polls: Polls): Progress
    decreases |polls|
  {
    if polls == [] then p else Follow(AfterPoll(p, polls[0]), polls[1..])
  }

  /** What a stream that started its clock at start sends in its polls. */
  function Polled(start: Time, polls: Polls): Progress {
    Follow(Progress(start, []), polls)
  }

  /** The gRPC stream; its failAt-th send fails. */
  class Stream {
    const failAt: Option<nat>
    var sent: seq<Log>

    constructor (failAt: Option<nat>)
      ensures this.failAt == failAt && sent == []
    {
      this.failAt := failAt;
      sent := [];
    }

    /** The stream broke on its way through all. */
    predicate BrokenIn(all: seq<Log>)
      reads this
    {
      sent < all && failAt == Some(|sent|)
    }

    method Send(l: Log) returns (ok: bool)
      modifies this
      ensures ok <==> failAt != Some(|old(sent)|)
      ensures sent == if ok then old(sent) + [l] else old(sent)
    {
      if failAt == Some(|sent|) {
        return false;
      }
      sent := sent + [l];
      return true;
    }

    method SendInitial(initial: seq<Log>) returns (ok: bool)
      modifies this
      ensures ok ==> sent == old(sent) + Reversed(initial)
      ensures !ok ==> BrokenIn(old(sent) + Reversed(initial))
    {
      var i := |initial|;
      while i > 0
        invariant 0 <= i <= |initial| && sent == old(sent) + Reversed(initial[i..])
      {
        i := i - 1;
        Onward(initial, i);
        ok := Send(initial[i]);
        if !ok {
          return;
        }
      }
      assert initial[0..] == initial;
      return true;
    }

    method SendNew(newLogs: seq<Log>, seen: Time) returns (ok: bool, lastSeen: Time)
      modifies this
      ensures ok ==> sent == old(sent) + Reversed(newLogs) && lastSeen == Latest(Reversed(newLogs), seen)
      ensures !ok ==> BrokenIn(old(sent) + Reversed(newLogs))
    {
      lastSeen := seen;
      var i := |newLogs|;
      while i > 0
        invariant 0 <= i <= |newLogs| && sent == old(sent) + Reversed(newLogs[i..])
        invariant lastSeen == Latest(Reversed(newLogs[i..]), seen)
      {
        i := i - 1;
        Onward(newLogs, i);
        LatestOnward(Reversed(newLogs[i + 1..]), newLogs[i], seen);
        ok := Send(newLogs[i]);
        if !ok {
          return;
        }
        if newLogs[i].timestamp > lastSeen {
          lastSeen := newLogs[i].timestamp;
        }
      }
      assert newLogs[0..] == newLogs;
      return true, lastSeen;
    }
  }

  /** The next log to go, going through s from its end. */
  lemma Onward(s: seq<Log>, i: nat)
    requires i < |s|
    ensures Reversed(s[i..]) == Reversed(s[i + 1..]) + [s[i]]
    ensures Reversed(s[i + 1..]) < Reversed(s)
  {
    assert s[i..][1..] == s[i + 1..];
    TailFirst(s, i);
  }

  lemma {:induction false} TailFirst(s: seq<Log>, i: nat)
    requires i <= |s|
    ensures Reversed(s[i..]) <= Reversed(s)
    decreases i
  {
    if i == 0 {
      assert s[0..] == s;
    } else {
      TailFirst(s[1..], i - 1);
      assert s[1..][i - 1..] == s[i..];
    }
  }

  lemma {:induction false} LatestIs(logs: seq<Log>, seen: Time)
    ensures Latest(logs, seen) >= seen && forall l | l in logs :: l.timestamp <= Latest(logs, seen)
    ensures Latest(logs, seen) == seen || exists l | l in logs :: l.timestamp == Latest(logs, seen)
    decreases |logs|
  {
    if logs != [] {
      var n := |logs| - 1;
      LatestIs(logs[..n], seen);
      assert logs == logs[..n] + [logs[n]];
      assert logs[n] in logs;
    }
  }

  lemma LatestOnward(r: seq<Log>, l: Log, seen: Time)
    ensures Latest(r + [l], seen) == if l.timestamp > Latest(r, seen) then l.timestamp else Latest(r, seen)
  {
    assert (r + [l])[..|r|] == r;
  }

  method Newer(logs: seq<Log>, seen: Time) returns (newLogs: seq<Log>)
    ensures newLogs == NewerThan(logs, seen)
  {
    newLogs := [];
    for i := 0 to |logs|
      invariant newLogs == NewerThan(logs[..i], seen)
    {
      assert logs[..i + 1][..i] == logs[..i];
      if logs[i].timestamp > seen {
        newLogs := newLogs + [logs[i]];
      }
    }
    assert logs[..|logs|] == logs;
  }

  function First(initial: Option<seq<Log>>): seq<Log> {
    if initial.Some? then Reversed(initial.value) else []
  }

  lemma {:induction false} FromTheEnd(s: seq<Log>, k: nat)
    requires k < |s|
    ensures |Reversed(s)| == |s| && Reversed(s)[k] == s[|s| - 1 - k]
    decreases |s|
  {
    if |s| > 1 {
      FromTheEnd(s[1..], if k < |s| - 1 then k else 0);
    }
  }

  /** What the first fetch has newest first goes out in the opposite order. */
  lemma OldestFirst(initial: Option<seq<Log>>)
    requires initial.Some?
    ensures |First(initial)| == |initial.value|
    ensures forall k | 0 <= k < |initial.value| :: First(initial)[k] == initial.value[|initial.value| - 1 - k]
  {
    if initial.value != [] {
      FromTheEnd(initial.value, 0);
    }
    forall k | 0 <= k < |initial.value|
      ensures |First(initial)| == |initial.value| && First(initial)[k] == initial.value[|initial.value| - 1 - k]
    {
      FromTheEnd(initial.value, k);
    }
  }

  /** initial is the first fetch, start the clock when it is done, polls what each later fetch returns. */
  method StreamLogs(stream: Stream, initial: Option<seq<Log>>, start: Time, polls: Polls) returns (ok: bool)
    requires stream.sent == []
    modifies stream
    ensures ok ==> stream.sent == First(initial) + Polled(start, polls).sent
    ensures initial.Some? ==> forall k | 0 <= k < |initial.value| && k < |stream.sent| ::
              stream.sent[k] == initial.value[|initial.value| - 1 - k]
    ensures ok && initial.Some? ==> |stream.sent| >= |initial.value|
    ensures !ok ==> stream.BrokenIn(First(initial) + Polled(start, polls).sent)
  {
    FirstApart(First(initial), Progress(start, []), polls);
    if initial.Some? {
      OldestFirst(initial);
    }
    if initial.Some? && |initial.value| > 0 {
      ok := stream.SendInitial(initial.value);
      if !ok {
        return;
      }
    }
    var lastSeen := start;
    assert polls[0..] == polls && First(initial) + [] == First(initial);
    assert stream.sent == First(initial);
    for i := 0 to |polls|
      invariant Follow(Progress(lastSeen, stream.sent), polls[i..]).sent == First(initial) + Polled(start, polls).sent
    {
      assert polls[i..][1..] == polls[i + 1..];
      if polls[i].None? {
        assert AfterPoll(Progress(lastSeen, stream.sent), polls[i]).sent == stream.sent;
        continue;
      }
      ghost var p := AfterPoll(Progress(lastSeen, stream.sent), polls[i]);
      var newLogs := Newer(polls[i].value, lastSeen);
      if |newLogs| > 0 {
        Grows(p, polls[i + 1..]);
        ok, lastSeen := stream.SendNew(newLogs, lastSeen);
        if !ok {
          return;
        }
      }
      assert p == Progress(lastSeen, stream.sent);
    }
    return true;
  }

  lemma {:induction false} FirstApart(first: seq<Log>, p: Progress, polls: Polls)
    ensures Follow(Progress(p.seen, first + p.sent), polls).sent == first + Follow(p, polls).sent
    decreases |polls|
  {
    if polls != [] {
      var batch := Batch(polls[0], p.seen);
      assert (first + p.sent) + batch == first + (p.sent + batch);
      FirstApart(first, AfterPoll(p, polls[0]), polls[1..]);
    }
  }

  lemma PollGrows(p: Progress, poll: Option<seq<Log>>)
    ensures p.sent <= AfterPoll(p, poll).sent && p.seen <= AfterPoll(p, poll).seen
  {
    LatestIs(Batch(poll, p.seen), p.seen);
  }

  lemma {:induction false} Grows(p: Progress, polls: Polls)
    ensures p.sent <= Follow(p, polls).sent && p.seen <= Follow(p, polls).seen
    decreases |polls|
  {
    if polls != [] {
      PollGrows(p, polls[0]);
      Grows(AfterPoll(p, polls[0]), polls[1..]);
    }
  }

  // --------------------------------------------------------- one fetch

  predicate Descending(logs: seq<Log>) {
    forall i, j | 0 <= i < j < |logs| :: logs[i].timestamp >= logs[j].timestamp
  }

  predicate Ascending(logs: seq<Log>) {
    forall i, j | 0 <= i < j < |logs| :: logs[i].timestamp <= logs[j].timestamp
  }

  predicate Distinct(logs: seq<Log>) {
    forall i, j | 0 <= i < j < |logs| :: logs[i] != logs[j]
  }

  function Elements(logs: seq<Log>): set<Log> {
    set l | l in logs
  }

  /** ORDER BY timestamp DESC LIMIT 50 over the matching rows, ties in any order. */
  ghost predicate IsWindow(logs: seq<Log>, present: set<Log>) {
    && Descending(logs) && Distinct(logs) && Elements(logs) <= present
    && |logs| == (if |present| <= WINDOW then |present| else WINDOW)
    && forall l, m | l in present && l !in logs && m in logs :: l.timestamp <= m.timestamp
  }

  lemma {:induction false} NewerMembers(logs: seq<Log>, seen: Time, l: Log)
    ensures l in NewerThan(logs, seen) <==> l in logs && l.timestamp > seen
    decreases |logs|
  {
    if logs != [] {
      var n := |logs| - 1;
      NewerMembers(logs[..n], seen, l);
      assert logs == logs[..n] + [logs[n]];
    }
  }

  lemma OneMore(s: seq<Log>, l: Log)
    requires Descending(s) && Distinct(s) && l !in s && forall m | m in s :: m.timestamp >= l.timestamp
    ensures Descending(s + [l]) && Distinct(s + [l])
  {
    assert forall i | 0 <= i < |s| :: s[i] in s;
  }

  lemma {:induction false} NewerKeeps(logs: seq<Log>, seen: Time)
    requires Descending(logs) && Distinct(logs)
    ensures Descending(NewerThan(logs, seen)) && Distinct(NewerThan(logs, seen))
    decreases |logs|
  {
    if logs != [] {
      var n := |logs| - 1;
      NewerKeeps(logs[..n], seen);
      if logs[n].timestamp > seen {
        var r := NewerThan(logs[..n], seen);
        forall m | m in r
          ensures m.timestamp >= logs[n].timestamp && m != logs[n]
        {
          NewerMembers(logs[..n], seen, m);
        }
        OneMore(r, logs[n]);
      }
    }
  }

  lemma {:induction false} ReversedKeeps(s: seq<Log>)
    requires Descending(s) && Distinct(s)
    ensures Ascending(Reversed(s)) && Distinct(Reversed(s))
    ensures forall l :: l in Reversed(s) <==> l in s
    decreases |s|
  {
    if s != [] {
      ReversedKeeps(s[1..]);
      assert s == [s[0]] + s[1..];
      var r := Reversed(s[1..]);
      forall i | 0 <= i < |r|
        ensures r[i].timestamp <= s[0].timestamp && r[i] != s[0]
      {
        assert r[i] in s[1..];
      }
    }
  }

  lemma BatchIs(logs: seq<Log>, seen: Time)
    requires Descending(logs) && Distinct(logs)
    ensures var b := Batch(Some(logs), seen);
            Ascending(b) && Distinct(b) && forall l :: l in b <==> l in logs && l.timestamp > seen
  {
    NewerKeeps(logs, seen);
    ReversedKeeps(NewerThan(logs, seen));
    forall l
      ensures l in Batch(Some(logs), seen) <==> l in logs && l.timestamp > seen
    {
      NewerMembers(logs, seen, l);
    }
  }

  // ------------------------------------------------------------ whole runs

  /** present[i] is what the filter matches at the time of poll i. */
  ghost predicate Windows(polls: Polls, present: seq<set<Log>>) {
    |polls| == |present| && forall i | 0 <= i < |polls| && polls[i].Some? :: IsWindow(polls[i].value, present[i])
  }

  /** Each later batch is newer than all before it. */
  lemma Appended(sent: seq<Log>, batch: seq<Log>, seen: Time)
    requires Ascending(sent) && Distinct(sent) && forall l | l in sent :: l.timestamp <= seen
    requires Ascending(batch) && Distinct(batch) && forall l | l in batch :: l.timestamp > seen
    ensures Ascending(sent + batch) && Distinct(sent + batch)
  {
    assert forall i | 0 <= i < |sent| :: sent[i] in sent;
    assert forall i | 0 <= i < |batch| :: batch[i] in batch;
  }

  /** In the order of time, no log twice, and all between the start and the watermark. */
  ghost predicate InOrder(start: Time, p: Progress) {
    && p.seen >= start && Ascending(p.sent) && Distinct(p.sent)
    && forall l | l in p.sent :: start < l.timestamp <= p.seen
  }

  lemma PollInOrder(start: Time, p: Progress, poll: Option<seq<Log>>)
    requires InOrder(start, p) && (poll.Some? ==> Descending(poll.value) && Distinct(poll.value))
    ensures InOrder(start, AfterPoll(p, poll))
  {
    var batch := Batch(poll, p.seen);
    if poll.Some? {
      BatchIs(poll.value, p.seen);
    }
    LatestIs(batch, p.seen);
    Appended(p.sent, batch, p.seen);
  }

  lemma {:induction false} StaysInOrder(start: Time, p: Progress, polls: Polls, present: seq<set<Log>>)
    requires Windows(polls, present) && InOrder(start, p)
    ensures InOrder(start, Follow(p, polls))
    decreases |polls|
  {
    if polls != [] {
      PollInOrder(start, p, polls[0]);
      StaysInOrder(start, AfterPoll(p, polls[0]), polls[1..], present[1..]);
    }
  }

  /** The polls send in the order of time, no log twice, and nothing as old as the start. */
  lemma InOrderOnce(start: Time, polls: Polls, present: seq<set<Log>>)
    requires Windows(polls, present)
    ensures var sent := Polled(start, polls).sent;
            Ascending(sent) && Distinct(sent) && forall l | l in sent :: l.timestamp > start
  {
    StaysInOrder(start, Progress(start, []), polls, present);
  }

  /** What is not newer than the watermark is not in the next batch. */
  lemma PollSkips(p: Progress, poll: Option<seq<Log>>, l: Log)
    requires (poll.Some? ==> Descending(poll.value) && Distinct(poll.value)) && l.timestamp <= p.seen
    ensures l in AfterPoll(p, poll).sent <==> l in p.sent
    ensures l.timestamp <= AfterPoll(p, poll).seen
  {
    PollGrows(p, poll);
    if poll.Some? {
      BatchIs(poll.value, p.seen);
    }
  }

  /** It has been sent or never will be. */
  lemma {:induction false} NeverAfter(p: Progress, polls: Polls, present: seq<set<Log>>, l: Log)
    requires Windows(polls, present) && l.timestamp <= p.seen
    ensures l in Follow(p, polls).sent <==> l in p.sent
    decreases |polls|
  {
    if polls != [] {
      PollSkips(p, polls[0], l);
      NeverAfter(AfterPoll(p, polls[0]), polls[1..], present[1..], l);
    }
  }

  /** A window that leaves out a log is full of newer ones, or ones as new. */
  lemma LeftOut(logs: seq<Log>, present: set<Log>, l: Log, seen: Time)
    requires IsWindow(logs, present) && l in present && l !in logs && l.timestamp > seen
    ensures |logs| == WINDOW && forall m | m in logs :: m.timestamp > seen
    ensures Latest(Batch(Some(logs), seen), seen) >= l.timestamp
  {
    DistinctSize(logs);
    if |present| <= WINDOW {
      SameSize(Elements(logs), present);
    }
    BatchIs(logs, seen);
    var b := Batch(Some(logs), seen);
    LatestIs(b, seen);
    assert logs[0] in logs && logs[0] in b;
  }

  lemma {:induction false} DistinctSize(logs: seq<Log>)
    requires Distinct(logs)
    ensures |Elements(logs)| == |logs|
    decreases |logs|
  {
    if logs != [] {
      var n := |logs| - 1;
      DistinctSize(logs[..n]);
      assert logs == logs[..n] + [logs[n]];
      assert Elements(logs) == Elements(logs[..n]) + {logs[n]};
    }
  }

  lemma PollSends(p: Progress, logs: seq<Log>, present: set<Log>, l: Log)
    requires IsWindow(logs, present) && l in present
    ensures var p' := AfterPoll(p, Some(logs));
            && l.timestamp <= p'.seen
            && (l in p'.sent <==> l in p.sent || (l.timestamp > p.seen && l in logs))
  {
    BatchIs(logs, p.seen);
    LatestIs(Batch(Some(logs), p.seen), p.seen);
    if l.timestamp > p.seen && l !in logs {
      LeftOut(logs, present, l, p.seen);
    }
  }

  /**
    A log that a successful poll could have seen is ever sent exactly if it had been
    sent before, or was newer than the watermark and among the fifty fetched.
  */
  lemma SentIff(p: Progress, logs: seq<Log>, here: set<Log>, later: Polls, present: seq<set<Log>>, l: Log)
    requires IsWindow(logs, here) && Windows(later, present) && l in here
    ensures l in Follow(AfterPoll(p, Some(logs)), later).sent <==> l in p.sent || (l.timestamp > p.seen && l in logs)
  {
    PollSends(p, logs, here, l);
    NeverAfter(AfterPoll(p, Some(logs)), later, present, l);
  }

  function After(present: set<Log>, seen: Time): set<Log> {
    set l | l in present && l.timestamp > seen
  }

  /**
    All the logs newer than the watermark that a poll could have seen are sent, then or
    later, exactly if there are no more than fifty of them; of more, some are lost for good.
  */
  lemma FiftyAtMost(start: Time, earlier: Polls, past: seq<set<Log>>, logs: seq<Log>, here: set<Log>,
                    later: Polls, present: seq<set<Log>>)
    requires Windows(earlier, past) && IsWindow(logs, here) && Windows(later, present)
    ensures var p := Polled(start, earlier);
            (forall l | l in After(here, p.seen) :: l in Follow(AfterPoll(p, Some(logs)), later).sent)
            <==> |After(here, p.seen)| <= WINDOW
  {
    var p := Polled(start, earlier);
    StaysInOrder(start, Progress(start, []), earlier, past);
    forall l | l in After(here, p.seen)
      ensures l in Follow(AfterPoll(p, Some(logs)), later).sent <==> l in logs
    {
      SentIff(p, logs, here, later, present, l);
    }
    AllInWindow(logs, here, p.seen);
  }

  /** The rows that were there at some poll, but not before the stream began; had are those known already. */
  function Arrived(before: set<Log>, had: set<Log>, polls: Polls, present: seq<set<Log>>): set<Log>
    requires |polls| == |present|
    decreases |polls|
  {
    if polls == [] then had
    else Arrived(before, if polls[0].Some? then had + (present[0] - before) else had, polls[1..], present[1..])
  }

  /** From one fetch that works to the next, at most fifty rows appear, all stamped after the watermark. */
  ghost predicate Steady(before: set<Log>, had: set<Log>, p: Progress, polls: Polls, present: seq<set<Log>>)
    requires |polls| == |present|
    decreases |polls|
  {
    polls == [] ||
    if polls[0].None? then Steady(before, had, AfterPoll(p, polls[0]), polls[1..], present[1..])
    else
      var novel := present[0] - before - had;
      && |novel| <= WINDOW && (forall l | l in novel :: l.timestamp > p.seen)
      && Steady(before, had + (present[0] - before), AfterPoll(p, polls[0]), polls[1..], present[1..])
  }

  lemma NextPoll(before: set<Log>, start: Time, p: Progress, had: set<Log>, logs: seq<Log>, present: set<Log>)
    requires InOrder(start, p) && multiset(p.sent) == multiset(had) && IsWindow(logs, present)
    requires forall l | l in before :: l.timestamp <= start
    requires var novel := present - before - had; |novel| <= WINDOW && forall l | l in novel :: l.timestamp > p.seen
    ensures multiset(AfterPoll(p, Some(logs)).sent) == multiset(had + (present - before))
  {
    forall l | l in had
      ensures l.timestamp <= p.seen
    {
      assert l in multiset(p.sent);
    }
    var novel := present - before - had;
    assert novel == After(present, p.seen);
    BatchIsNovel(logs, present, p.seen);
    assert had + (present - before) == had + novel;
    DisjointSum(had, novel);
  }

  lemma {:induction false} ExactlyOnceFrom(before: set<Log>, had: set<Log>, start: Time, p: Progress,
                                           polls: Polls, present: seq<set<Log>>)
    requires Windows(polls, present) && Steady(before, had, p, polls, present)
    requires InOrder(start, p) && multiset(p.sent) == multiset(had) && forall l | l in before :: l.timestamp <= start
    ensures multiset(Follow(p, polls).sent) == multiset(Arrived(before, had, polls, present))
    decreases |polls|
  {
    if polls != [] {
      PollInOrder(start, p, polls[0]);
      var p' := AfterPoll(p, polls[0]);
      if polls[0].Some? {
        NextPoll(before, start, p, had, polls[0].value, present[0]);
        ExactlyOnceFrom(before, had + (present[0] - before), start, p', polls[1..], present[1..]);
      } else {
        assert p'.sent == p.sent;
        ExactlyOnceFrom(before, had, start, p', polls[1..], present[1..]);
      }
    }
  }

  lemma DisjointSum(a: set<Log>, b: set<Log>)
    requires a !! b
    ensures multiset(a + b) == multiset(a) + multiset(b)
  {}

  /** Then every row that appears is sent, once, and nothing else is. */
  lemma ExactlyOnce(before: set<Log>, start: Time, polls: Polls, present: seq<set<Log>>)
    requires Windows(polls, present) && Steady(before, {}, Progress(start, []), polls, present)
    requires forall l | l in before :: l.timestamp <= start
    ensures multiset(Polled(start, polls).sent) == multiset(Arrived(before, {}, polls, present))
  {
    ExactlyOnceFrom(before, {}, start, Progress(start, []), polls, present);
  }

  /** The logs newer than the watermark are all in the window exactly if it can hold them. */
  lemma AllInWindow(logs: seq<Log>, present: set<Log>, seen: Time)
    requires IsWindow(logs, present)
    ensures (forall l | l in After(present, seen) :: l in logs) <==> |After(present, seen)| <= WINDOW
  {
    var novel := After(present, seen);
    DistinctSize(logs);
    if forall l | l in novel :: l in logs {
      assert novel <= Elements(logs);
      SubsetSize(novel, Elements(logs));
    } else {
      var l :| l in novel && l !in logs;
      LeftOut(logs, present, l, seen);
      assert Elements(logs) + {l} <= novel;
      SubsetSize(Elements(logs) + {l}, novel);
    }
  }

  lemma BatchIsNovel(logs: seq<Log>, present: set<Log>, seen: Time)
    requires IsWindow(logs, present) && |After(present, seen)| <= WINDOW
    ensures multiset(Batch(Some(logs), seen)) == multiset(After(present, seen))
  {
    BatchIs(logs, seen);
    AllInWindow(logs, present, seen);
    var b, novel := Batch(Some(logs), seen), After(present, seen);
    assert forall l | l in b :: l in logs && l in Elements(logs);
    DistinctCounts(b, novel);
  }

  lemma {:induction false} DistinctCounts(b: seq<Log>, s: set<Log>)
    requires Distinct(b) && forall l :: l in b <==> l in s
    ensures multiset(b) == multiset(s)
    decreases |b|
  {
    if b == [] {
      assert s == {};
    } else {
      var n := |b| - 1;
      assert b == b[..n] + [b[n]];
      assert b[n] in b;
      DistinctCounts(b[..n], s - {b[n]});
      assert s == (s - {b[n]}) + {b[n]};
    }
  }

  // -------------------------------------------------- the first fetch, and again

  lemma {:induction false} ReversedDistinct(s: seq<Log>)
    requires Distinct(s)
    ensures Distinct(Reversed(s)) && forall l :: l in Reversed(s) <==> l in s
    decreases |s|
  {
    if s != [] {
      ReversedDistinct(s[1..]);
      assert s == [s[0]] + s[1..];
      var r := Reversed(s[1..]);
      forall i | 0 <= i < |r|
        ensures r[i] != s[0]
      {
        assert r[i] in s[1..];
      }
    }
  }

  lemma DistinctSum(a: seq<Log>, b: seq<Log>)
    requires Distinct(a) && Distinct(b)
    ensures Distinct(a + b) <==> forall l | l in a :: l !in b
  {
    if l :| l in a && l in b {
      var i :| 0 <= i < |a| && a[i] == l;
      var j :| 0 <= j < |b| && b[j] == l;
      assert (a + b)[i] == (a + b)[|a| + j];
    } else {
      assert forall i | 0 <= i < |a| :: a[i] in a;
      assert forall j | 0 <= j < |b| :: b[j] in b;
    }
  }

  /** The first fetch's logs stamped by the start are never polled; so a repetition is one of the others, polled. */
  lemma OnceIffApart(initial: seq<Log>, start: Time, polls: Polls, present: seq<set<Log>>)
    requires Distinct(initial) && Windows(polls, present)
    ensures var sent := Polled(start, polls).sent;
            && (forall l | l in initial && l.timestamp <= start :: l !in sent)
            && (Distinct(First(Some(initial)) + sent) <==>
                  forall l | l in initial && l.timestamp > start :: l !in sent)
  {
    InOrderOnce(start, polls, present);
    ReversedDistinct(initial);
    DistinctSum(Reversed(initial), Polled(start, polls).sent);
  }

  /** Poll n is the first whose fetch works. */
  predicate FirstWorking(polls: Polls, n: nat) {
    n < |polls| && polls[n].Some? && forall i | 0 <= i < n :: polls[i].None?
  }

  lemma {:induction false} FailedPollsChangeNothing(p: Progress, polls: Polls, n: nat)
    requires n <= |polls| && forall i | 0 <= i < n :: polls[i].None?
    ensures Follow(p, polls) == Follow(p, polls[n..])
    decreases n
  {
    if n == 0 {
      assert polls[0..] == polls;
    } else {
      assert AfterPoll(p, polls[0]).sent == p.sent;
      FailedPollsChangeNothing(p, polls[1..], n - 1);
      assert polls[1..][n - 1..] == polls[n..];
    }
  }

  /** What is sent has been fetched. */
  lemma {:induction false} SentWasFetched(p: Progress, polls: Polls, present: seq<set<Log>>, l: Log)
    requires Windows(polls, present) && l in Follow(p, polls).sent
    ensures l in p.sent || exists m | 0 <= m < |polls| :: polls[m].Some? && l in polls[m].value
    decreases |polls|
  {
    if polls != [] {
      SentWasFetched(AfterPoll(p, polls[0]), polls[1..], present[1..], l);
      if m :| 0 <= m < |polls[1..]| && polls[1..][m].Some? && l in polls[1..][m].value {
        assert polls[m + 1] == polls[1..][m];
      } else if polls[0].Some? {
        BatchIs(polls[0].value, p.seen);
        assert l in p.sent || l in polls[0].value;
      }
    }
  }

  lemma PolledWasPresent(start: Time, polls: Polls, present: seq<set<Log>>, l: Log)
    requires Windows(polls, present)
    ensures l in Polled(start, polls).sent ==> exists m | 0 <= m < |polls| :: polls[m].Some? && l in present[m]
  {
    if l in Polled(start, polls).sent {
      SentWasFetched(Progress(start, []), polls, present, l);
      var m :| 0 <= m < |polls| && polls[m].Some? && l in polls[m].value;
      assert l in Elements(polls[m].value);
    }
  }

  /** A log deleted before poll n does not come back. */
  ghost predicate StaysGone(polls: Polls, present: seq<set<Log>>, n: nat, l: Log)
    requires n < |polls| == |present|
  {
    l in present[n] || forall m | n <= m < |polls| :: l !in present[m]
  }

  /**
    The polls ever send a log that is there, or gone for good, when a fetch first works
    exactly if that fetch has it and it is stamped after the start.
  */
  lemma SentAgainIff(start: Time, polls: Polls, present: seq<set<Log>>, n: nat, l: Log)
    requires Windows(polls, present) && FirstWorking(polls, n) && StaysGone(polls, present, n, l)
    ensures l in Polled(start, polls).sent <==> l.timestamp > start && l in polls[n].value
  {
    var p := Progress(start, []);
    assert l in polls[n].value <==> l in Elements(polls[n].value);
    if l in present[n] {
      var rest := polls[n..];
      FailedPollsChangeNothing(p, polls, n);
      assert rest[0] == polls[n] && rest[1..] == polls[n + 1..];
      assert Windows(polls[n + 1..], present[n + 1..]);
      SentIff(p, polls[n].value, present[n], polls[n + 1..], present[n + 1..], l);
    } else {
      PolledWasPresent(start, polls, present, l);
    }
  }

  /**
    The whole stream sends no log twice if and only if the first fetch and the first poll
    whose fetch works have no log in common that is stamped after the start.
  */
  lemma OnceInAllIff(initial: seq<Log>, start: Time, polls: Polls, present: seq<set<Log>>, n: nat)
    requires Distinct(initial) && Windows(polls, present) && FirstWorking(polls, n)
    requires forall l | l in initial :: StaysGone(polls, present, n, l)
    ensures Distinct(First(Some(initial)) + Polled(start, polls).sent) <==>
              forall l | l in initial && l in polls[n].value :: l.timestamp <= start
  {
    OnceIffApart(initial, start, polls, present);
    forall l | l in initial
      ensures l in Polled(start, polls).sent <==> l.timestamp > start && l in polls[n].value
    {
      SentAgainIff(start, polls, present, n, l);
    }
  }

  /** With no fetch that works there is nothing to repeat. */
  lemma NothingPolled(start: Time, polls: Polls)
    requires forall i | 0 <= i < |polls| :: polls[i].None?
    ensures Polled(start, polls).sent == []
  {
    FailedPollsChangeNothing(Progress(start, []), polls, |polls|);
    assert polls[|polls|..] == [];
  }

  /** A row stamped after this server's clock, as another machine's clock may have it, is sent twice. */
  lemma StampedAheadIsRepeated(start: Time, l: Log)
    requires l.timestamp > start
    ensures Windows([Some([l])], [{l}])
    ensures First(Some([l])) + Polled(start, [Some([l])]).sent == [l, l]
  {
    SingleBatch(l, start);
    assert Elements([l]) == {l};
    var p, polls := Progress(start, []), [Some([l])];
    assert Follow(p, polls) == Follow(AfterPoll(p, polls[0]), []);
  }

  lemma SingleBatch(l: Log, seen: Time)
    requires l.timestamp > seen
    ensures Reversed([l]) == [l] && Batch(Some([l]), seen) == [l]
  {
    assert [l][1..] == [] && [l][..0] == [];
    assert NewerThan([l], seen) == [l];
  }
}

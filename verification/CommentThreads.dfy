/**
  The thread builder of GetCommentsBySlug (internal/repository/comment.go): comments
  are copied by value into their parent's reply list, so what a copy contains
  depends on when it was taken.
*/
module CommentThreads {
  import opened Wrappers

  type Id = int

  /** body stands for the columns the builder only carries along. */
  datatype Comment = Comment(id: Id, parent: Option<Id>, body: string, replies: seq<Comment>)

  ghost predicate DistinctIds(rows: seq<Comment>) {
    forall i, j | 0 <= i < j < |rows| :: rows[i].id != rows[j].id
  }

  ghost predicate Listed(rows: seq<Comment>, id: Id) {
    exists i | 0 <= i < |rows| :: rows[i].id == id
  }

  ghost predicate IsRoot(rows: seq<Comment>, i: nat)
    requires i < |rows|
  {
    rows[i].parent.None? || !Listed(rows, rows[i].parent.value)
  }

  predicate Answers(rows: seq<Comment>, j: nat, i: nat)
    requires j < |rows| && i < |rows|
  {
    rows[j].parent == Some(rows[i].id)
  }

  /** The replies attached to row i once the first n rows have been handed out. */
  ghost function Attached(rows: seq<Comment>, i: nat, n: nat): seq<Comment>
    requires i < |rows| && n <= |rows|
    decreases n, 0
  {
    if n == 0 then []
    else Attached(rows, i, n - 1) + (if Answers(rows, n - 1, i) then [Snapshot(rows, n - 1)] else [])
  }

  /** Row j as it is copied when its turn comes. */
  ghost function Snapshot(rows: seq<Comment>, j: nat): Comment
    requires j < |rows|
    decreases j, 1
  {
    rows[j].(replies := Attached(rows, j, j))
  }

  /** The rows without a listed parent among the first n, in order, each with all that was attached to it. */
  ghost function Threads(rows: seq<Comment>, n: nat): seq<Comment>
    requires n <= |rows|
  {
    if n == 0 then []
    else Threads(rows, n - 1)
         + (if IsRoot(rows, n - 1) then [rows[n - 1].(replies := Attached(rows, n - 1, |rows|))] else [])
  }

  /** Where the roots are. */
  ghost function RootIndices(rows: seq<Comment>, n: nat): (r: seq<nat>)
    requires n <= |rows|
    ensures forall k | 0 <= k < |r| :: r[k] < n
  {
    if n == 0 then [] else RootIndices(rows, n - 1) + (if IsRoot(rows, n - 1) then [n - 1] else [])
  }

  lemma {:induction false} ThreadsAtRoots(rows: seq<Comment>, n: nat)
    requires n <= |rows|
    ensures |Threads(rows, n)| == |RootIndices(rows, n)|
    ensures forall k | 0 <= k < |Threads(rows, n)| ::
              var i := RootIndices(rows, n)[k];
              Threads(rows, n)[k] == rows[i].(replies := Attached(rows, i, |rows|))
  {
    if n > 0 {
      ThreadsAtRoots(rows, n - 1);
    }
  }

  /** The rows in memory after the first n have been handed out. */
  ghost predicate HandedOut(now: seq<Comment>, rows: seq<Comment>, n: nat) {
    && |now| == |rows| && n <= |rows|
    && forall j | 0 <= j < |rows| :: now[j] == rows[j].(replies := Attached(rows, j, n))
  }

  lemma HandOutReply(now: seq<Comment>, rows: seq<Comment>, n: nat, p: nat)
    requires DistinctIds(rows) && HandedOut(now, rows, n) && n < |rows| && p < |rows| && Answers(rows, n, p)
    ensures HandedOut(now[p := now[p].(replies := now[p].replies + [Snapshot(rows, n)])], rows, n + 1)
  {
    forall j | 0 <= j < |rows| && j != p ensures !Answers(rows, n, j) {
      if j < p {} else {}
    }
  }

  lemma HandOutRoot(now: seq<Comment>, rows: seq<Comment>, n: nat)
    requires HandedOut(now, rows, n) && n < |rows| && IsRoot(rows, n)
    ensures HandedOut(now, rows, n + 1)
  {}

  ghost predicate Indexes(commentMap: map<Id, nat>, rows: seq<Comment>, n: nat)
    requires n <= |rows|
  {
    && (forall id | id in commentMap :: commentMap[id] < n && rows[commentMap[id]].id == id)
    && (forall j | 0 <= j < n :: rows[j].id in commentMap)
  }

  /** The first pass: commentMap points at every row. */
  method IndexRows(all: array<Comment>) returns (commentMap: map<Id, nat>)
    requires DistinctIds(all[..])
    ensures Indexes(commentMap, all[..], all.Length)
  {
    commentMap := map[];
    for i := 0 to all.Length
      invariant Indexes(commentMap, all[..], i)
    {
      assert all[i] == all[..][i];
      commentMap := commentMap[all[i].id := i];
    }
  }

  /** The second pass, one row: it is copied to its parent's replies, or to the roots. */
  method HandOutOne(all: array<Comment>, commentMap: map<Id, nat>, i: nat, copied: seq<Comment>,
                    ghost rows: seq<Comment>)
    returns (roots: seq<Comment>)
    requires DistinctIds(rows) && Indexes(commentMap, rows, |rows|) && i < |rows|
    requires HandedOut(all[..], rows, i) && Copied(copied, rows, i)
    modifies all
    ensures HandedOut(all[..], rows, i + 1) && Copied(roots, rows, i + 1)
  {
    ghost var before := all[..];
    var item := all[i];
    roots := copied;
    CopyStep(copied, rows, i);
    assert item == before[i];
    if item.parent.Some? && item.parent.value in commentMap {
      var p := commentMap[item.parent.value];
      IndexedAt(commentMap, rows, item.parent.value);
      HandOutReply(before, rows, i, p);
      assert Listed(rows, item.parent.value);
      all[p] := all[p].(replies := all[p].replies + [item]);
      assert all[..] == before[p := before[p].(replies := before[p].replies + [Snapshot(rows, i)])];
    } else {
      NotIndexed(commentMap, rows, i);
      HandOutRoot(before, rows, i);
      roots := roots + [item];
    }
  }

  /** The second pass over all rows. */
  method HandOut(all: array<Comment>, commentMap: map<Id, nat>) returns (roots: seq<Comment>)
    requires DistinctIds(all[..]) && Indexes(commentMap, all[..], all.Length)
    requires forall i | 0 <= i < all.Length :: all[i].replies == []
    modifies all
    ensures HandedOut(all[..], old(all[..]), all.Length)
    ensures Copied(roots, old(all[..]), all.Length)
  {
    ghost var rows := all[..];
    roots := [];
    NothingHandedOut(rows);
    for i := 0 to all.Length
      invariant HandedOut(all[..], rows, i)
      invariant Copied(roots, rows, i)
    {
      roots := HandOutOne(all, commentMap, i, roots, rows);
    }
  }

  lemma NothingHandedOut(rows: seq<Comment>)
    requires forall i | 0 <= i < |rows| :: rows[i].replies == []
    ensures HandedOut(rows, rows, 0) && Copied([], rows, 0)
  {}

  /** The third pass: the roots take the reply lists as they stand now. */
  method RefreshRoots(all: array<Comment>, commentMap: map<Id, nat>, copies: seq<Comment>, ghost rows: seq<Comment>)
    returns (roots: seq<Comment>)
    requires DistinctIds(rows) && Indexes(commentMap, rows, |rows|)
    requires HandedOut(all[..], rows, |rows|) && Copied(copies, rows, |rows|)
    ensures roots == Threads(rows, |rows|)
  {
    roots := copies;
    ThreadsAtRoots(rows, |rows|);
    for k := 0 to |roots|
      invariant |roots| == |copies|
      invariant forall m | 0 <= m < |roots| :: roots[m] == if m < k then Threads(rows, |rows|)[m] else copies[m]
    {
      if roots[k].id in commentMap {
        var i := commentMap[roots[k].id];
        SameRow(rows, i, RootIndices(rows, |rows|)[k]);
        assert all[i] == all[..][i];
        roots := roots[k := roots[k].(replies := all[i].replies)];
      }
    }
  }

  /** all holds the rows read from the database, each with an empty reply list. */
  method BuildThreads(all: array<Comment>) returns (roots: seq<Comment>, totalCount: nat)
    requires DistinctIds(all[..])
    requires forall i | 0 <= i < all.Length :: all[i].replies == []
    modifies all
    ensures totalCount == all.Length
    ensures roots == Threads(old(all[..]), all.Length)
    ensures Threaded(old(all[..]), roots)
  {
    ThreadsAreThreaded(all[..]);
    totalCount := all.Length;
    var commentMap := IndexRows(all);
    var copies := HandOut(all, commentMap);
    roots := RefreshRoots(all, commentMap, copies, old(all[..]));
  }

  // ------------------------------------------------------ which rows, in which order

  predicate Increasing(at: seq<nat>) {
    forall a, b | 0 <= a < b < |at| :: at[a] < at[b]
  }

  /** The places, in order, of the rows without a parent on the list. */
  ghost predicate RootsAt(rows: seq<Comment>, at: seq<nat>) {
    && Increasing(at)
    && forall i: nat :: i in at <==>
         i < |rows| && (rows[i].parent.None? || forall p | 0 <= p < |rows| :: rows[p].id != rows[i].parent.value)
  }

  /** The places, in order, of those of the first n rows that answer row i. */
  ghost predicate RepliesAt(rows: seq<Comment>, i: nat, n: nat, at: seq<nat>)
    requires i < |rows| && n <= |rows|
  {
    Increasing(at) && forall j: nat :: j in at <==> j < n && rows[j].parent == Some(rows[i].id)
  }

  /** Copies of those rows, each with what had come before it of its own replies, and so on down. */
  ghost predicate CopiesOf(rows: seq<Comment>, i: nat, n: nat, copies: seq<Comment>)
    requires i < |rows| && n <= |rows|
    decreases n
  {
    exists at :: RepliesAt(rows, i, n, at) && |copies| == |at|
      && forall m | 0 <= m < |at| ::
           && at[m] in at
           && copies[m].(replies := []) == rows[at[m]]
           && CopiesOf(rows, at[m], at[m], copies[m].replies)
  }

  /** Row i with copies of all its direct replies. */
  ghost predicate ThreadOf(rows: seq<Comment>, i: nat, c: Comment) {
    i < |rows| && c.(replies := []) == rows[i] && CopiesOf(rows, i, |rows|, c.replies)
  }

  /** The output: the roots in their order, each with its thread. */
  ghost predicate Threaded(rows: seq<Comment>, roots: seq<Comment>) {
    exists at :: RootsAt(rows, at) && |roots| == |at| && forall k | 0 <= k < |at| :: ThreadOf(rows, at[k], roots[k])
  }

  lemma {:induction false} RootIndicesAreRoots(rows: seq<Comment>, n: nat)
    requires n <= |rows|
    ensures Increasing(RootIndices(rows, n))
    ensures forall i: nat :: i in RootIndices(rows, n) <==> i < n && IsRoot(rows, i)
  {
    if n > 0 {
      RootIndicesAreRoots(rows, n - 1);
    }
  }

  lemma RootsAreAt(rows: seq<Comment>)
    ensures RootsAt(rows, RootIndices(rows, |rows|))
  {
    RootIndicesAreRoots(rows, |rows|);
  }

  /** The places of the replies to row i among the first n rows. */
  ghost function ReplyIndices(rows: seq<Comment>, i: nat, n: nat): (at: seq<nat>)
    requires i < |rows| && n <= |rows|
    ensures forall m | 0 <= m < |at| :: at[m] < n
  {
    if n == 0 then [] else ReplyIndices(rows, i, n - 1) + (if Answers(rows, n - 1, i) then [n - 1] else [])
  }

  lemma {:induction false} IndicesAreReplies(rows: seq<Comment>, i: nat, n: nat)
    requires i < |rows| && n <= |rows|
    ensures RepliesAt(rows, i, n, ReplyIndices(rows, i, n))
  {
    if n > 0 {
      IndicesAreReplies(rows, i, n - 1);
      var before, at := ReplyIndices(rows, i, n - 1), ReplyIndices(rows, i, n);
      forall j: nat
        ensures j in at <==> j in before || (j == n - 1 && Answers(rows, j, i))
      {}
    }
  }

  lemma {:induction false} AttachedAtReplies(rows: seq<Comment>, i: nat, n: nat)
    requires i < |rows| && n <= |rows|
    ensures |Attached(rows, i, n)| == |ReplyIndices(rows, i, n)|
    ensures forall m | 0 <= m < |ReplyIndices(rows, i, n)| ::
              Attached(rows, i, n)[m] == Snapshot(rows, ReplyIndices(rows, i, n)[m])
  {
    if n > 0 {
      AttachedAtReplies(rows, i, n - 1);
    }
  }

  lemma {:induction false} AttachedAreCopies(rows: seq<Comment>, i: nat, n: nat)
    requires i < |rows| && n <= |rows| && forall j | 0 <= j < |rows| :: rows[j].replies == []
    ensures CopiesOf(rows, i, n, Attached(rows, i, n))
    decreases n
  {
    IndicesAreReplies(rows, i, n);
    AttachedAtReplies(rows, i, n);
    var at := ReplyIndices(rows, i, n);
    forall m | 0 <= m < |at|
      ensures Attached(rows, i, n)[m].(replies := []) == rows[at[m]]
      ensures CopiesOf(rows, at[m], at[m], Attached(rows, i, n)[m].replies)
    {
      AttachedAreCopies(rows, at[m], at[m]);
    }
  }

  lemma ThreadAt(rows: seq<Comment>, i: nat)
    requires i < |rows| && forall j | 0 <= j < |rows| :: rows[j].replies == []
    ensures ThreadOf(rows, i, rows[i].(replies := Attached(rows, i, |rows|)))
  {
    AttachedAreCopies(rows, i, |rows|);
  }

  lemma ThreadsAreThreaded(rows: seq<Comment>)
    requires forall j | 0 <= j < |rows| :: rows[j].replies == []
    ensures Threaded(rows, Threads(rows, |rows|))
  {
    var at, roots := RootIndices(rows, |rows|), Threads(rows, |rows|);
    RootsAreAt(rows);
    ThreadsAtRoots(rows, |rows|);
    forall k | 0 <= k < |at|
      ensures ThreadOf(rows, at[k], roots[k])
    {
      ThreadAt(rows, at[k]);
    }
  }

  ghost predicate Copied(roots: seq<Comment>, rows: seq<Comment>, n: nat)
    requires n <= |rows|
  {
    && |roots| == |RootIndices(rows, n)|
    && forall k | 0 <= k < |roots| :: roots[k] == Snapshot(rows, RootIndices(rows, n)[k])
  }

  lemma CopyStep(roots: seq<Comment>, rows: seq<Comment>, n: nat)
    requires n < |rows| && Copied(roots, rows, n)
    ensures Copied(if IsRoot(rows, n) then roots + [Snapshot(rows, n)] else roots, rows, n + 1)
  {}

  lemma IndexedAt(commentMap: map<Id, nat>, rows: seq<Comment>, id: Id)
    requires Indexes(commentMap, rows, |rows|) && id in commentMap
    ensures commentMap[id] < |rows| && rows[commentMap[id]].id == id
  {}

  lemma NotIndexed(commentMap: map<Id, nat>, rows: seq<Comment>, i: nat)
    requires i < |rows| && Indexes(commentMap, rows, |rows|)
    requires rows[i].parent.None? || rows[i].parent.value !in commentMap
    ensures IsRoot(rows, i)
  {}

  lemma SameRow(rows: seq<Comment>, i: nat, j: nat)
    requires DistinctIds(rows) && i < |rows| && j < |rows| && rows[i].id == rows[j].id
    ensures i == j
  {
    if i < j {} else if j < i {}
  }

  // --------------------------------------------- what parents-first order gives

  /** Every listed parent comes before its replies. */
  ghost predicate ParentsFirst(rows: seq<Comment>) {
    forall i, j | 0 <= i < |rows| && 0 <= j < |rows| && Answers(rows, j, i) :: i < j
  }

  /** The rows that answer row i, in order, as read from the database. */
  function DirectReplies(rows: seq<Comment>, i: nat, n: nat): seq<Comment>
    requires i < |rows| && n <= |rows|
  {
    if n == 0 then []
    else DirectReplies(rows, i, n - 1) + (if Answers(rows, n - 1, i) then [rows[n - 1]] else [])
  }

  lemma {:induction false} NothingAttachedBefore(rows: seq<Comment>, j: nat, n: nat)
    requires ParentsFirst(rows) && j < |rows| && n <= j
    ensures Attached(rows, j, n) == []
  {
    if n > 0 {
      NothingAttachedBefore(rows, j, n - 1);
    }
  }

  lemma {:induction false} AttachedAreDirect(rows: seq<Comment>, i: nat, n: nat)
    requires ParentsFirst(rows) && i < |rows| && n <= |rows|
    requires forall j | 0 <= j < |rows| :: rows[j].replies == []
    ensures Attached(rows, i, n) == DirectReplies(rows, i, n)
  {
    if n > 0 {
      AttachedAreDirect(rows, i, n - 1);
      NothingAttachedBefore(rows, n - 1, n - 1);
      assert Snapshot(rows, n - 1) == rows[n - 1];
    }
  }

  /** The roots of a page, each with its direct replies and nothing below them. */
  ghost function TwoLevels(rows: seq<Comment>, n: nat): seq<Comment>
    requires n <= |rows|
  {
    if n == 0 then []
    else TwoLevels(rows, n - 1)
         + (if IsRoot(rows, n - 1) then [rows[n - 1].(replies := DirectReplies(rows, n - 1, |rows|))] else [])
  }

  /** Parents first, the builder emits the roots in order, each with exactly its direct replies, which carry none. */
  lemma {:induction false} ThreadsAreTwoLevels(rows: seq<Comment>, n: nat)
    requires ParentsFirst(rows) && n <= |rows|
    requires forall j | 0 <= j < |rows| :: rows[j].replies == []
    ensures Threads(rows, n) == TwoLevels(rows, n)
  {
    if n > 0 {
      ThreadsAreTwoLevels(rows, n - 1);
      AttachedAreDirect(rows, n - 1, |rows|);
    }
  }

  // ------------------------------------------------------- what the total counts

  function Nodes(cs: seq<Comment>): nat {
    if cs == [] then 0 else NodesIn(cs[0]) + Nodes(cs[1..])
  }

  function NodesIn(c: Comment): nat {
    1 + Nodes(c.replies)
  }

  lemma {:induction false} NodesAppend(cs: seq<Comment>, c: Comment)
    ensures Nodes(cs + [c]) == Nodes(cs) + NodesIn(c)
    decreases |cs|
  {
    if cs == [] {
      assert cs + [c] == [c];
    } else {
      assert (cs + [c])[1..] == cs[1..] + [c];
      NodesAppend(cs[1..], c);
    }
  }

  /** What a row brings along when it is copied. */
  ghost function Weight(rows: seq<Comment>, j: nat): nat
    requires j < |rows|
  {
    NodesIn(Snapshot(rows, j))
  }

  lemma OneMoreAttached(rows: seq<Comment>, p: nat, n: nat)
    requires p < |rows| && n < |rows|
    ensures Nodes(Attached(rows, p, n + 1)) ==
            Nodes(Attached(rows, p, n)) + (if Answers(rows, n, p) then Weight(rows, n) else 0)
  {
    NodesAppend(Attached(rows, p, n), Snapshot(rows, n));
    assert Attached(rows, p, n) + [] == Attached(rows, p, n);
  }

  /** Row j answers some root among the first m rows. */
  ghost predicate AnswersRoot(rows: seq<Comment>, j: nat, m: nat)
    requires j < |rows| && m <= |rows|
  {
    exists i | 0 <= i < m :: IsRoot(rows, i) && Answers(rows, j, i)
  }

  /** What those of the first n rows bring that answer a root among the first m. */
  ghost function UnderRoots(rows: seq<Comment>, m: nat, n: nat): nat
    requires m <= |rows| && n <= |rows|
  {
    if n == 0 then 0
    else UnderRoots(rows, m, n - 1) + (if AnswersRoot(rows, n - 1, m) then Weight(rows, n - 1) else 0)
  }

  ghost function Roots(rows: seq<Comment>, n: nat): nat
    requires n <= |rows|
  {
    if n == 0 then 0 else Roots(rows, n - 1) + (if IsRoot(rows, n - 1) then 1 else 0)
  }

  /** One more root adds exactly what is attached to it: no row answers two roots. */
  lemma {:induction false} OneMoreRoot(rows: seq<Comment>, m: nat, n: nat)
    requires DistinctIds(rows) && m < |rows| && n <= |rows|
    ensures UnderRoots(rows, m + 1, n) ==
            UnderRoots(rows, m, n) + (if IsRoot(rows, m) then Nodes(Attached(rows, m, n)) else 0)
    decreases n
  {
    if n > 0 {
      OneMoreRoot(rows, m, n - 1);
      OneMoreAttached(rows, m, n - 1);
      assert AnswersRoot(rows, n - 1, m + 1) <==>
             AnswersRoot(rows, n - 1, m) || (IsRoot(rows, m) && Answers(rows, n - 1, m));
      assert !(AnswersRoot(rows, n - 1, m) && Answers(rows, n - 1, m));
    }
  }

  lemma {:induction false} UnderNone(rows: seq<Comment>, n: nat)
    requires n <= |rows|
    ensures UnderRoots(rows, 0, n) == 0
  {
    if n > 0 {
      UnderNone(rows, n - 1);
    }
  }

  lemma OneMoreThread(rows: seq<Comment>, m: nat)
    requires m < |rows|
    ensures Nodes(Threads(rows, m + 1)) ==
            Nodes(Threads(rows, m)) + (if IsRoot(rows, m) then 1 + Nodes(Attached(rows, m, |rows|)) else 0)
  {
    NodesAppend(Threads(rows, m), rows[m].(replies := Attached(rows, m, |rows|)));
    assert Threads(rows, m) + [] == Threads(rows, m);
  }

  lemma NodesStep(rows: seq<Comment>, m: nat)
    requires DistinctIds(rows) && m < |rows|
    requires Nodes(Threads(rows, m)) == Roots(rows, m) + UnderRoots(rows, m, |rows|)
    ensures Nodes(Threads(rows, m + 1)) == Roots(rows, m + 1) + UnderRoots(rows, m + 1, |rows|)
  {
    OneMoreRoot(rows, m, |rows|);
    OneMoreThread(rows, m);
  }

  lemma {:induction false} NodesOfThreads(rows: seq<Comment>, m: nat)
    requires DistinctIds(rows) && m <= |rows|
    ensures Nodes(Threads(rows, m)) == Roots(rows, m) + UnderRoots(rows, m, |rows|)
    decreases m
  {
    if m == 0 {
      UnderNone(rows, |rows|);
    } else {
      NodesOfThreads(rows, m - 1);
      NodesStep(rows, m - 1);
    }
  }

  /** Row j is shown: as a root, under a root, or in the copy of a later row that is shown. */
  ghost predicate Shown(rows: seq<Comment>, j: nat)
    requires j < |rows|
    decreases |rows| - j
  {
    IsRoot(rows, j) || InShown(rows, j, j + 1)
  }

  /** Row j hangs under a root, or under a shown row from k on. */
  ghost predicate InShown(rows: seq<Comment>, j: nat, k: nat)
    requires j < k <= |rows|
    decreases |rows| - j, 0
  {
    AnswersRoot(rows, j, |rows|) || exists p | k <= p < |rows| :: Answers(rows, j, p) && Shown(rows, p)
  }

  lemma OneParent(rows: seq<Comment>, j: nat, p: nat, q: nat)
    requires DistinctIds(rows) && j < |rows| && p < |rows| && q < |rows| && Answers(rows, j, p) && Answers(rows, j, q)
    ensures p == q && !IsRoot(rows, j)
  {
    SameRow(rows, p, q);
    assert Listed(rows, rows[p].id);
  }

  /** What those of the first n rows bring that hang under a root or a shown row from k on. */
  ghost function Hanging(rows: seq<Comment>, n: nat, k: nat): nat
    requires n <= k <= |rows|
  {
    if n == 0 then 0
    else Hanging(rows, n - 1, k) + (if InShown(rows, n - 1, k) then Weight(rows, n - 1) else 0)
  }

  lemma OneLowerAt(rows: seq<Comment>, i: nat, k: nat)
    requires DistinctIds(rows) && i < k < |rows|
    ensures InShown(rows, i, k) <==> InShown(rows, i, k + 1) || (Answers(rows, i, k) && Shown(rows, k))
    ensures Answers(rows, i, k) ==> (InShown(rows, i, k + 1) <==> IsRoot(rows, k))
  {
    if Answers(rows, i, k) {
      if r :| 0 <= r < |rows| && IsRoot(rows, r) && Answers(rows, i, r) {
        OneParent(rows, i, k, r);
      }
      if p :| k + 1 <= p < |rows| && Answers(rows, i, p) && Shown(rows, p) {
        OneParent(rows, i, k, p);
      }
    }
  }

  /** Taking row k in adds what is attached to it, if it is shown and no root. */
  lemma {:induction false} OneLower(rows: seq<Comment>, n: nat, k: nat)
    requires DistinctIds(rows) && n <= k < |rows|
    ensures Hanging(rows, n, k) == Hanging(rows, n, k + 1)
            + (if Shown(rows, k) && !IsRoot(rows, k) then Nodes(Attached(rows, k, n)) else 0)
    decreases n
  {
    if n > 0 {
      OneLower(rows, n - 1, k);
      OneMoreAttached(rows, k, n - 1);
      OneLowerAt(rows, n - 1, k);
    }
  }

  /** The shown replies among the first n rows. */
  ghost function ShownReplies(rows: seq<Comment>, n: nat): nat
    requires n <= |rows|
  {
    if n == 0 then 0
    else ShownReplies(rows, n - 1) + (if Shown(rows, n - 1) && !IsRoot(rows, n - 1) then 1 else 0)
  }

  lemma RootHangsNowhere(rows: seq<Comment>, j: nat, k: nat)
    requires j < k <= |rows| && IsRoot(rows, j)
    ensures !InShown(rows, j, k)
  {
    assert forall p | 0 <= p < |rows| :: rows[j].parent == Some(rows[p].id) ==> Listed(rows, rows[p].id);
  }

  /** Unfolding the rows from k on trades what hangs under them for one node each. */
  lemma {:induction false} UnfoldTo(rows: seq<Comment>, k: nat)
    requires DistinctIds(rows) && k <= |rows|
    ensures Hanging(rows, |rows|, |rows|) + ShownReplies(rows, k) == Hanging(rows, k, k) + ShownReplies(rows, |rows|)
    decreases |rows| - k
  {
    if k < |rows| {
      UnfoldTo(rows, k + 1);
      OneLower(rows, k, k);
      if IsRoot(rows, k) {
        RootHangsNowhere(rows, k, k + 1);
      }
    }
  }

  lemma {:induction false} HangingIsUnderRoots(rows: seq<Comment>, n: nat)
    requires n <= |rows|
    ensures Hanging(rows, n, |rows|) == UnderRoots(rows, |rows|, n)
  {
    if n > 0 {
      HangingIsUnderRoots(rows, n - 1);
    }
  }

  /** The nodes of the threads are the rows that are shown, once each. */
  lemma NodesAreShown(rows: seq<Comment>)
    requires DistinctIds(rows)
    ensures Nodes(Threads(rows, |rows|)) == Roots(rows, |rows|) + ShownReplies(rows, |rows|)
  {
    NodesOfThreads(rows, |rows|);
    HangingIsUnderRoots(rows, |rows|);
    UnfoldTo(rows, 0);
  }

  ghost predicate IsShown(rows: seq<Comment>, j: nat)
    requires j < |rows|
  {
    Shown(rows, j)
  }

  lemma {:induction false} ShownCount(rows: seq<Comment>, n: nat)
    requires n <= |rows|
    ensures Roots(rows, n) + ShownReplies(rows, n) <= n
    ensures Roots(rows, n) + ShownReplies(rows, n) == n <==> forall j | 0 <= j < n :: IsShown(rows, j)
    decreases n
  {
    if n > 0 {
      ShownCount(rows, n - 1);
      var step := Roots(rows, n) + ShownReplies(rows, n) - Roots(rows, n - 1) - ShownReplies(rows, n - 1);
      assert step == if IsShown(rows, n - 1) then 1 else 0;
    }
  }

  /** A reply to a reply stands before what it answers. */
  ghost predicate DeepRepliesFirst(rows: seq<Comment>) {
    forall j, p | 0 <= j < |rows| && 0 <= p < |rows| && Answers(rows, j, p) && !IsRoot(rows, p) :: j < p
  }

  lemma {:induction false} ShownFrom(rows: seq<Comment>, j: nat)
    requires DeepRepliesFirst(rows) && j < |rows|
    ensures Shown(rows, j)
    decreases |rows| - j
  {
    if !IsRoot(rows, j) {
      var p :| 0 <= p < |rows| && rows[p].id == rows[j].parent.value;
      assert Answers(rows, j, p);
      if IsRoot(rows, p) {
        assert AnswersRoot(rows, j, |rows|);
      } else {
        ShownFrom(rows, p);
        assert InShown(rows, j, j + 1);
      }
    }
  }

  lemma ShownStandsFirst(rows: seq<Comment>, j: nat, p: nat)
    requires DistinctIds(rows) && j < |rows| && p < |rows|
    requires Shown(rows, j) && Answers(rows, j, p) && !IsRoot(rows, p)
    ensures j < p
  {
    OneParent(rows, j, p, p);
    forall r: nat | r < |rows| && Answers(rows, j, r)
      ensures r == p
    {
      OneParent(rows, j, p, r);
    }
  }

  lemma AllShownIff(rows: seq<Comment>)
    requires DistinctIds(rows)
    ensures (forall j | 0 <= j < |rows| :: IsShown(rows, j)) <==> DeepRepliesFirst(rows)
  {
    if DeepRepliesFirst(rows) {
      forall j | 0 <= j < |rows|
        ensures IsShown(rows, j)
      {
        ShownFrom(rows, j);
      }
    } else {
      var j, p :| 0 <= j < |rows| && 0 <= p < |rows| && Answers(rows, j, p) && !IsRoot(rows, p) && j >= p;
      assert !IsShown(rows, j) by {
        if IsShown(rows, j) {
          ShownStandsFirst(rows, j, p);
        }
      }
    }
  }

  /**
    In whatever order the rows come, the reported total is the number of comments shown
    if and only if every reply to a reply stands before what it answers.
  */
  lemma TotalIsShownIff(rows: seq<Comment>)
    requires DistinctIds(rows)
    ensures Nodes(Threads(rows, |rows|)) <= |rows|
    ensures Nodes(Threads(rows, |rows|)) == |rows| <==> DeepRepliesFirst(rows)
  {
    NodesAreShown(rows);
    ShownCount(rows, |rows|);
    AllShownIff(rows);
  }

  /** Some reply answers a reply. */
  ghost predicate HasDeepReply(rows: seq<Comment>) {
    exists i, j | 0 <= i < |rows| && 0 <= j < |rows| :: Answers(rows, j, i) && !IsRoot(rows, i)
  }

  /** Parents first, the total is the number of comments shown if and only if no reply answers a reply. */
  lemma TotalIsShownIffShallow(rows: seq<Comment>)
    requires DistinctIds(rows) && ParentsFirst(rows)
    ensures Nodes(Threads(rows, |rows|)) <= |rows|
    ensures Nodes(Threads(rows, |rows|)) == |rows| <==> !HasDeepReply(rows)
  {
    TotalIsShownIff(rows);
    assert DeepRepliesFirst(rows) <==> !HasDeepReply(rows);
  }
}

/**
  Post reactions (internal/repository/reaction.go): a toggle in one transaction, the
  counts of one post, and the paged summary of all posts.
*/
module Reactions {
  import opened LikePattern
  import opened Wrappers

  type RowId = string
  type UserId = string
  type Kind = string

  /** A post slug, as its place in the collation order that ORDER BY post_slug uses. */
  type Slug = int

  datatype Row = Row(slug: Slug, user: UserId, kind: Kind)

  type Table = map<RowId, Row>

  /** The unique index on (post_slug, user_id). */
  ghost predicate Unique(t: Table) {
    forall i, j | i in t && j in t && t[i].slug == t[j].slug && t[i].user == t[j].user :: i == j
  }

  ghost predicate Has(t: Table, slug: Slug, user: UserId) {
    exists i | i in t :: t[i].slug == slug && t[i].user == user
  }

  function RowsOf(t: Table, slug: Slug): set<RowId> {
    set i | i in t && t[i].slug == slug
  }

  function RowsOfKind(t: Table, slug: Slug, kind: Kind): set<RowId> {
    set i | i in t && t[i].slug == slug && t[i].kind == kind
  }

  function CountOf(t: Table, slug: Slug, kind: Kind): nat {
    |RowsOfKind(t, slug, kind)|
  }

  function KindsOf(t: Table, slug: Slug): set<Kind> {
    set i | i in t && t[i].slug == slug :: t[i].kind
  }

  function Reactors(t: Table, slug: Slug): set<UserId> {
    set i | i in t && t[i].slug == slug :: t[i].user
  }

  // -------------------------------------------------------------- the toggle

  /** The row of (slug, user), if there is one. */
  ghost predicate IsRowOf(t: Table, slug: Slug, user: UserId, i: RowId) {
    i in t && t[i].slug == slug && t[i].user == user
  }

  /** The toggle as a relation: remove the same reaction, switch another, add a first one under a new id. */
  ghost predicate Toggled(t: Table, t': Table, slug: Slug, user: UserId, kind: Kind, active: bool) {
    if Has(t, slug, user) then
      exists i :: IsRowOf(t, slug, user, i)
        && (if t[i].kind == kind then !active && t' == t - {i}
            else active && t' == t[i := Row(slug, user, kind)])
    else
      exists i :: i !in t && active && t' == t[i := Row(slug, user, kind)]
  }

  function Cleared(t: Table, slug: Slug, who: Option<UserId>): Table {
    map i | i in t && !Names(slug, who, t[i].slug, t[i].user) :: t[i]
  }

  predicate Names(slug: Slug, who: Option<UserId>, s: Slug, u: UserId) {
    s == slug && (who.None? || u == who.value)
  }

  /** allowed is model.AllowedReactionTypes: the kinds a summary lists even when nobody used them. */
  class Repository {
    const allowed: set<Kind>
    var rows: Table

    constructor (allowed: set<Kind>)
      ensures rows == map[] && this.allowed == allowed
    {
      rows := map[];
      this.allowed := allowed;
    }

    /** newId is the id the database would give an inserted row; after the toggle the post is read again. */
    method ToggleReaction(slug: Slug, kind: Kind, user: UserId, newId: RowId)
      returns (active: bool, totalCount: nat, reactions: map<Kind, nat>, userReaction: Option<Kind>)
      requires Unique(rows) && newId !in rows
      modifies this
      ensures Unique(rows) && Toggled(old(rows), rows, slug, user, kind, active)
      ensures totalCount == |RowsOf(rows, slug)| && reactions == Counts(rows, slug, allowed)
      ensures userReaction == if active then Some(kind) else None
    {
      active := Toggle(slug, kind, user, newId);
      ToggleEffect(old(rows), rows, slug, user, kind, active);
      totalCount, reactions, userReaction := GetReactionsBySlug(slug, Some(user));
    }

    /** The transaction. */
    method Toggle(slug: Slug, kind: Kind, user: UserId, newId: RowId) returns (active: bool)
      requires Unique(rows) && newId !in rows
      modifies this
      ensures Unique(rows) && Toggled(old(rows), rows, slug, user, kind, active)
    {
      if i :| i in rows && rows[i].slug == slug && rows[i].user == user {
        assert IsRowOf(rows, slug, user, i);
        if rows[i].kind == kind {
          rows := rows - {i};
          active := false;
        } else {
          rows := rows[i := Row(slug, user, kind)];
          active := true;
        }
      } else {
        rows := rows[newId := Row(slug, user, kind)];
        active := true;
      }
    }

    /** Without a user, or with the nil one, who is None and every reaction to the post goes. */
    method DeleteReaction(slug: Slug, who: Option<UserId>)
      requires Unique(rows)
      modifies this
      ensures Unique(rows) && rows == Cleared(old(rows), slug, who)
      ensures forall i :: i in rows <==>
                i in old(rows) && (old(rows)[i].slug == slug ==> who.Some? && old(rows)[i].user != who.value)
      ensures forall i | i in rows :: rows[i] == old(rows)[i]
    {
      rows := map i | i in rows && !(rows[i].slug == slug && (who.None? || rows[i].user == who.value)) :: rows[i];
    }

    /** The counts of a post and, for a user who asks, that user's own reaction. */
    method GetReactionsBySlug(slug: Slug, who: Option<UserId>)
      returns (totalCount: nat, reactions: map<Kind, nat>, userReaction: Option<Kind>)
      ensures totalCount == |RowsOf(rows, slug)|
      ensures reactions == Counts(rows, slug, allowed)
      ensures who.None? ==> userReaction == None
      ensures who.Some? ==> (userReaction.Some? <==> Has(rows, slug, who.value))
      ensures who.Some? && Unique(rows) ==> userReaction == KindBy(rows, slug, who.value)
    {
      totalCount, reactions := CountReactions(slug);
      userReaction := None;
      if who.Some? {
        if i :| i in rows && rows[i].slug == slug && rows[i].user == who.value {
          assert IsRowOf(rows, slug, who.value, i);
          userReaction := Some(rows[i].kind);
        }
        if Unique(rows) {
          KindByRow(rows, slug, who.value);
        }
      }
    }

    /** The count query's groups come in any order; each is added to the total as it is read. */
    method CountReactions(slug: Slug) returns (totalCount: nat, reactions: map<Kind, nat>)
      ensures totalCount == |RowsOf(rows, slug)|
      ensures reactions == Counts(rows, slug, allowed)
    {
      reactions := Zeros(allowed);
      totalCount := 0;
      var kinds := KindsOf(rows, slug);
      var todo := kinds;
      CountedSoFar(rows, slug, {});
      while todo != {}
        invariant todo <= kinds
        invariant totalCount == |RowsOfKinds(rows, slug, kinds - todo)|
        invariant reactions.Keys == allowed + (kinds - todo)
        invariant forall k | k in reactions :: reactions[k] == if k in kinds - todo then CountOf(rows, slug, k) else 0
        decreases todo
      {
        var kind :| kind in todo;
        var count := CountOf(rows, slug, kind);
        reactions := reactions[kind := count];
        totalCount := totalCount + count;
        OneMoreKind(rows, slug, kinds - todo, kind);
        assert kinds - (todo - {kind}) == (kinds - todo) + {kind};
        todo := todo - {kind};
      }
      assert kinds - todo == kinds;
      AllKinds(rows, slug);
      forall k | k in reactions ensures reactions[k] == CountOf(rows, slug, k) {
        if k !in kinds {
          AbsentKind(rows, slug, k);
        }
      }
    }
  }

  // ------------------------------------------------------------- the summaries

  datatype Group = Group(slug: Slug, kind: Kind, count: nat)

  datatype Summary = Summary(slug: Slug, totalCount: nat, reactions: map<Kind, nat>)

  /** GROUP BY post_slug, reaction_type ORDER BY post_slug: the order within a slug is left open. */
  ghost predicate Grouping(t: Table, gs: seq<Group>) {
    && (forall j | 0 <= j < |gs| :: Accurate(t, gs[j]))
    && (forall i | i in t :: Covered(gs, t[i].slug, t[i].kind))
    && (forall i, j | 0 <= i < j < |gs| :: gs[i].slug <= gs[j].slug)
  }

  ghost predicate Covered(gs: seq<Group>, slug: Slug, kind: Kind) {
    exists j | 0 <= j < |gs| :: gs[j].slug == slug && gs[j].kind == kind
  }

  function SlugsOf(t: Table): set<Slug> {
    set i | i in t :: t[i].slug
  }

  predicate Increasing(s: seq<Slug>) {
    forall i, j | 0 <= i < j < |s| :: s[i] < s[j]
  }

  /** The slugs a search finds; text is how a slug is written. */
  function Wanted(text: Slug -> string, search: string): Slug -> bool {
    slug => search == "" || ILikeMatch(Wrapped(search), text(slug))
  }

  function Matching(t: Table, want: Slug -> bool): Table {
    map i | i in t && want(t[i].slug) :: t[i]
  }

  /** The wanted slugs that have reactions, once each, in collation order. */
  ghost predicate Ordered(t: Table, want: Slug -> bool, s: seq<Slug>) {
    Increasing(s) && forall x :: x in s <==> x in SlugsOf(t) && want(x)
  }

  ghost function SummaryOf(t: Table, slug: Slug, allowed: set<Kind>): Summary {
    Summary(slug, |RowsOf(t, slug)|, Counts(t, slug, allowed))
  }

  ghost function SummariesOf(t: Table, slugs: seq<Slug>, allowed: set<Kind>): seq<Summary> {
    seq(|slugs|, i requires 0 <= i < |slugs| => SummaryOf(t, slugs[i], allowed))
  }

  function PageLimit(limit: int): nat {
    if limit <= 0 then 20 else if limit > 100 then 100 else limit
  }

  function Cut(n: nat, x: int): nat {
    if x < 0 then 0 else if x > n then n else x
  }

  /** One page: the summaries of a stretch of the ordered slugs. */
  ghost predicate IsPage(t: Table, want: Slug -> bool, allowed: set<Kind>, limit: int, offset: int,
                         page: seq<Summary>) {
    exists slugs :: Ordered(t, want, slugs) && page == SummariesOf(t, Window(slugs, limit, offset), allowed)
  }

  function Window(slugs: seq<Slug>, limit: int, offset: int): seq<Slug> {
    var start := Cut(|slugs|, offset);
    slugs[start..Cut(|slugs|, start + PageLimit(limit))]
  }

  /** What the scan makes of the groups of one slug: zeros, overwritten by the counts read. */
  function Filled(gs: seq<Group>, slug: Slug, allowed: set<Kind>): map<Kind, nat> {
    if gs == [] then Zeros(allowed)
    else
      var rest, g := Filled(gs[..|gs| - 1], slug, allowed), gs[|gs| - 1];
      if g.slug == slug then rest[g.kind := g.count] else rest
  }

  ghost predicate Accurate(t: Table, g: Group) {
    g.kind in KindsOf(t, g.slug) && g.count == CountOf(t, g.slug, g.kind)
  }

  lemma {:induction false} FilledAt(t: Table, gs: seq<Group>, slug: Slug, allowed: set<Kind>, k: Kind)
    requires forall j | 0 <= j < |gs| :: Accurate(t, gs[j])
    ensures var m := Filled(gs, slug, allowed);
            && (k in m <==> k in allowed || Covered(gs, slug, k))
            && (k in m ==> m[k] == if Covered(gs, slug, k) then CountOf(t, slug, k) else 0)
  {
    if gs != [] {
      var n := |gs| - 1;
      FilledAt(t, gs[..n], slug, allowed, k);
      assert Accurate(t, gs[n]);
      assert Covered(gs, slug, k) <==> Covered(gs[..n], slug, k) || (gs[n].slug == slug && gs[n].kind == k);
    }
  }

  lemma CoveredIsUsed(t: Table, gs: seq<Group>, slug: Slug, k: Kind)
    requires Grouping(t, gs)
    ensures Covered(gs, slug, k) <==> k in KindsOf(t, slug)
  {
    if Covered(gs, slug, k) {
      var j :| 0 <= j < |gs| && gs[j].slug == slug && gs[j].kind == k;
      assert Accurate(t, gs[j]);
    }
  }

  lemma FilledIsCounts(t: Table, gs: seq<Group>, slug: Slug, allowed: set<Kind>)
    requires Grouping(t, gs)
    ensures Filled(gs, slug, allowed) == Counts(t, slug, allowed)
  {
    forall k
      ensures k in Filled(gs, slug, allowed) <==> k in Counts(t, slug, allowed)
      ensures k in Filled(gs, slug, allowed) ==> Filled(gs, slug, allowed)[k] == CountOf(t, slug, k)
    {
      FilledAt(t, gs, slug, allowed, k);
      CoveredIsUsed(t, gs, slug, k);
      if k !in KindsOf(t, slug) {
        AbsentKind(t, slug, k);
      }
    }
  }

  /** The scan of the groups: summaryMap and orderedSlugs. */
  method ScanGroups(gs: seq<Group>, allowed: set<Kind>)
    returns (summaryMap: map<Slug, map<Kind, nat>>, orderedSlugs: seq<Slug>)
    requires forall i, j | 0 <= i < j < |gs| :: gs[i].slug <= gs[j].slug
    ensures Increasing(orderedSlugs)
    ensures forall x :: x in orderedSlugs <==> exists j | 0 <= j < |gs| :: gs[j].slug == x
    ensures forall x :: x in orderedSlugs <==> x in summaryMap
    ensures forall x | x in summaryMap :: summaryMap[x] == Filled(gs, x, allowed)
  {
    summaryMap := map[];
    orderedSlugs := [];
    for n := 0 to |gs|
      invariant Increasing(orderedSlugs)
      invariant forall x :: x in orderedSlugs <==> exists j | 0 <= j < n :: gs[j].slug == x
      invariant forall x :: x in orderedSlugs <==> x in summaryMap
      invariant forall x :: Filled(gs[..n], x, allowed) ==
                            if x in summaryMap then summaryMap[x] else Zeros(allowed)
    {
      var g := gs[n];
      assert gs[..n + 1][..n] == gs[..n];
      if g.slug !in summaryMap {
        summaryMap := summaryMap[g.slug := Zeros(allowed)];
        forall i | 0 <= i < |orderedSlugs| ensures orderedSlugs[i] < g.slug {
          assert orderedSlugs[i] in orderedSlugs;
        }
        orderedSlugs := orderedSlugs + [g.slug];
      }
      var counts: map<Kind, nat> := summaryMap[g.slug];
      counts := counts[g.kind := g.count];
      summaryMap := summaryMap[g.slug := counts];
    }
    assert gs[..|gs|] == gs;
  }

  function Zeros(allowed: set<Kind>): map<Kind, nat> {
    map k | k in allowed :: 0
  }

  /** The counts of a post: one per reaction in use, and zeros for the allowed ones that are not. */
  function Counts(t: Table, slug: Slug, allowed: set<Kind>): map<Kind, nat> {
    map k | k in allowed + KindsOf(t, slug) :: CountOf(t, slug, k)
  }

  function RowsOfKinds(t: Table, slug: Slug, kinds: set<Kind>): set<RowId> {
    set i | i in t && t[i].slug == slug && t[i].kind in kinds
  }

  lemma CountedSoFar(t: Table, slug: Slug, kinds: set<Kind>)
    requires kinds == {}
    ensures RowsOfKinds(t, slug, kinds) == {}
  {}

  lemma OneMoreKind(t: Table, slug: Slug, kinds: set<Kind>, kind: Kind)
    requires kind !in kinds
    ensures |RowsOfKinds(t, slug, kinds + {kind})| == |RowsOfKinds(t, slug, kinds)| + CountOf(t, slug, kind)
  {
    assert RowsOfKinds(t, slug, kinds + {kind}) == RowsOfKinds(t, slug, kinds) + RowsOfKind(t, slug, kind);
    assert RowsOfKinds(t, slug, kinds) !! RowsOfKind(t, slug, kind);
  }

  lemma AllKinds(t: Table, slug: Slug)
    ensures RowsOfKinds(t, slug, KindsOf(t, slug)) == RowsOf(t, slug)
  {
    assert forall i | i in t && t[i].slug == slug :: t[i].kind in KindsOf(t, slug);
  }

  lemma AbsentKind(t: Table, slug: Slug, kind: Kind)
    requires kind !in KindsOf(t, slug)
    ensures CountOf(t, slug, kind) == 0
  {
    forall i | i in t && t[i].slug == slug ensures t[i].kind != kind {
      assert t[i].kind in KindsOf(t, slug);
    }
    assert RowsOfKind(t, slug, kind) == {};
  }

  /** With at most one row per user, the rows of a post are as many as its reacting users. */
  lemma {:induction false} RowsAreReactors(t: Table, slug: Slug, s: set<RowId>)
    requires Unique(t) && s <= RowsOf(t, slug)
    ensures |s| == |set i | i in s :: t[i].user|
    decreases s
  {
    if s != {} {
      var i :| i in s;
      RowsAreReactors(t, slug, s - {i});
      var users, others := set j | j in s :: t[j].user, set j | j in s - {i} :: t[j].user;
      assert users == others + {t[i].user};
      assert t[i].user !in others by {
        forall j | j in s - {i} ensures t[j].user != t[i].user {}
      }
    }
  }

  lemma TotalIsReactors(t: Table, slug: Slug)
    requires Unique(t)
    ensures |RowsOf(t, slug)| == |Reactors(t, slug)|
  {
    RowsAreReactors(t, slug, RowsOf(t, slug));
    assert Reactors(t, slug) == set i | i in RowsOf(t, slug) :: t[i].user;
  }

  /** The reaction of a user on a post, None when there is none. */
  ghost function KindBy(t: Table, slug: Slug, user: UserId): Option<Kind> {
    if i :| IsRowOf(t, slug, user, i) then Some(t[i].kind) else None
  }

  /** Equal up to row ids: the same users react the same way to the same posts. */
  ghost predicate SameReactions(t: Table, u: Table) {
    forall slug, user :: KindBy(t, slug, user) == KindBy(u, slug, user)
  }

  lemma ToggledUnique(t: Table, t': Table, slug: Slug, user: UserId, kind: Kind, active: bool)
    requires Unique(t) && Toggled(t, t', slug, user, kind, active)
    ensures Unique(t')
  {
    if Has(t, slug, user) {
      var i :| IsRowOf(t, slug, user, i)
        && (if t[i].kind == kind then !active && t' == t - {i} else active && t' == t[i := Row(slug, user, kind)]);
    } else {
      var i :| i !in t && active && t' == t[i := Row(slug, user, kind)];
    }
  }

  /** What a toggle does to the reaction it names, and that it does nothing to any other. */
  lemma ToggleEffect(t: Table, t': Table, slug: Slug, user: UserId, kind: Kind, active: bool)
    requires Unique(t) && Toggled(t, t', slug, user, kind, active)
    ensures Unique(t')
    ensures KindBy(t', slug, user) == if KindBy(t, slug, user) == Some(kind) then None else Some(kind)
    ensures active <==> KindBy(t', slug, user) == Some(kind)
    ensures forall s, u | (s, u) != (slug, user) :: KindBy(t', s, u) == KindBy(t, s, u)
  {
    ToggledUnique(t, t', slug, user, kind, active);
    KindByRow(t, slug, user);
    KindByRow(t', slug, user);
    if Has(t, slug, user) {
      var i :| IsRowOf(t, slug, user, i)
        && (if t[i].kind == kind then !active && t' == t - {i} else active && t' == t[i := Row(slug, user, kind)]);
      if t[i].kind == kind {
        assert !Has(t', slug, user);
      } else {
        assert IsRowOf(t', slug, user, i);
      }
    } else {
      var i :| i !in t && active && t' == t[i := Row(slug, user, kind)];
      assert IsRowOf(t', slug, user, i);
    }
    forall s, u | (s, u) != (slug, user) ensures KindBy(t', s, u) == KindBy(t, s, u) {
      OthersKept(t, t', slug, user, kind, active, s, u);
    }
  }

  lemma OthersKept(t: Table, t': Table, slug: Slug, user: UserId, kind: Kind, active: bool, s: Slug, u: UserId)
    requires Unique(t) && Unique(t') && Toggled(t, t', slug, user, kind, active) && (s, u) != (slug, user)
    ensures KindBy(t', s, u) == KindBy(t, s, u)
  {
    KindByRow(t, s, u);
    KindByRow(t', s, u);
    assert forall i :: IsRowOf(t', s, u, i) ==> IsRowOf(t, s, u, i) && t'[i] == t[i];
    if i :| IsRowOf(t, s, u, i) {
      assert IsRowOf(t', s, u, i) && t'[i] == t[i];
    }
  }

  /** With the unique index, the one row of (slug, user) says what KindBy is. */
  lemma KindByRow(t: Table, slug: Slug, user: UserId)
    requires Unique(t)
    ensures forall i | IsRowOf(t, slug, user, i) :: KindBy(t, slug, user) == Some(t[i].kind)
    ensures KindBy(t, slug, user).Some? <==> Has(t, slug, user)
  {
    if Has(t, slug, user) {
      var i :| i in t && t[i].slug == slug && t[i].user == user;
      assert IsRowOf(t, slug, user, i);
    }
  }

  /**
    Toggling one reaction twice restores what everyone's reactions were exactly when
    the user had no reaction, or that one, to begin with.
  */
  lemma ToggleTwice(t0: Table, t1: Table, t2: Table, slug: Slug, user: UserId, kind: Kind, a1: bool, a2: bool)
    requires Unique(t0) && Toggled(t0, t1, slug, user, kind, a1) && Toggled(t1, t2, slug, user, kind, a2)
    ensures SameReactions(t2, t0) <==> KindBy(t0, slug, user) in {None, Some(kind)}
  {
    ToggleEffect(t0, t1, slug, user, kind, a1);
    ToggleEffect(t1, t2, slug, user, kind, a2);
    if KindBy(t0, slug, user) in {None, Some(kind)} {
      forall s, u ensures KindBy(t2, s, u) == KindBy(t0, s, u) {
        if (s, u) != (slug, user) {
          assert KindBy(t2, s, u) == KindBy(t1, s, u) == KindBy(t0, s, u);
        }
      }
    }
  }

  /** From no reaction, toggling twice gives back the very table, ids included. */
  lemma ToggleTwiceFromNone(t0: Table, t1: Table, t2: Table, slug: Slug, user: UserId, kind: Kind, a1: bool, a2: bool)
    requires Unique(t0) && !Has(t0, slug, user)
    requires Toggled(t0, t1, slug, user, kind, a1) && Toggled(t1, t2, slug, user, kind, a2)
    ensures t2 == t0
  {
    var i :| i !in t0 && t1 == t0[i := Row(slug, user, kind)];
    assert IsRowOf(t1, slug, user, i);
    assert Has(t1, slug, user);
    var j :| IsRowOf(t1, slug, user, j) && t2 == t1 - {j};
    assert j == i;
  }

  lemma ClearEffect(t: Table, slug: Slug, who: Option<UserId>, s: Slug, u: UserId)
    requires Unique(t)
    ensures Unique(Cleared(t, slug, who))
    ensures KindBy(Cleared(t, slug, who), s, u) == if s == slug && who in {None, Some(u)} then None else KindBy(t, s, u)
  {
    var t' := Cleared(t, slug, who);
    KindByRow(t, s, u);
    KindByRow(t', s, u);
    assert forall i :: IsRowOf(t', s, u, i) <==> IsRowOf(t, s, u, i) && !Names(slug, who, s, u);
    if i :| IsRowOf(t, s, u, i) {
      assert Names(slug, who, s, u) || IsRowOf(t', s, u, i);
    }
  }

  // -------------------------------------------------------------- whole runs

  datatype Step =
    | Toggle(slug: Slug, user: UserId, kind: Kind, active: bool)
    | Clear(slug: Slug, who: Option<UserId>)

  ghost predicate Moves(t: Table, t': Table, e: Step) {
    match e
    case Toggle(slug, user, kind, active) => Toggled(t, t', slug, user, kind, active)
    case Clear(slug, who) => t' == Cleared(t, slug, who)
  }

  ghost predicate IsRun(ts: seq<Table>, es: seq<Step>) {
    && |ts| == |es| + 1 && ts[0] == map[]
    && forall i | 0 <= i < |es| :: Moves(ts[i], ts[i + 1], es[i])
  }

  /** A user's reaction to a post, from the history alone. */
  function Replay(es: seq<Step>, slug: Slug, user: UserId): Option<Kind> {
    if es == [] then None
    else
      var before, e := Replay(es[..|es| - 1], slug, user), es[|es| - 1];
      match e
      case Toggle(s, u, kind, _) =>
        if (s, u) != (slug, user) then before else if before == Some(kind) then None else Some(kind)
      case Clear(s, who) => if Names(s, who, slug, user) then None else before
  }

  /**
    After any run of toggles and deletes a user has at most one reaction to a post,
    the one the user's own history and nobody else's gives.
  */
  lemma {:induction false} HistoryDecides(ts: seq<Table>, es: seq<Step>, slug: Slug, user: UserId)
    requires IsRun(ts, es)
    ensures Unique(ts[|es|]) && KindBy(ts[|es|], slug, user) == Replay(es, slug, user)
    decreases |es|
  {
    if es == [] {
      KindByRow(ts[0], slug, user);
    } else {
      var n := |es| - 1;
      HistoryDecides(ts[..|ts| - 1], es[..n], slug, user);
      assert Moves(ts[n], ts[n + 1], es[n]);
      match es[n]
      case Toggle(s, u, kind, active) => ToggleEffect(ts[n], ts[n + 1], s, u, kind, active);
      case Clear(s, who) => ClearEffect(ts[n], s, who, slug, user);
    }
  }

  // ------------------------------------------------------------------ paging

  /** The total of one summary, summed over its counts in any order. */
  method SumCounts(ghost t: Table, slug: Slug, ghost allowed: set<Kind>, counts: map<Kind, nat>) returns (total: nat)
    requires counts == Counts(t, slug, allowed)
    ensures total == |RowsOf(t, slug)|
  {
    total := 0;
    var todo := counts.Keys;
    CountedSoFar(t, slug, {});
    while todo != {}
      invariant todo <= counts.Keys
      invariant total == |RowsOfKinds(t, slug, counts.Keys - todo)|
      decreases todo
    {
      var k :| k in todo;
      total := total + counts[k];
      OneMoreKind(t, slug, counts.Keys - todo, k);
      assert counts.Keys - (todo - {k}) == (counts.Keys - todo) + {k};
      todo := todo - {k};
    }
    assert counts.Keys - todo == counts.Keys;
    AllKinds(t, slug);
    assert RowsOfKinds(t, slug, counts.Keys) == RowsOfKinds(t, slug, KindsOf(t, slug)) by {
      assert forall i | i in t && t[i].slug == slug :: t[i].kind in KindsOf(t, slug);
    }
  }

  /** gs is what the grouping query returned for the rows of the table t whose slug the search finds. */
  method GetSummaries(ghost t: Table, ghost text: Slug -> string, gs: seq<Group>, allowed: set<Kind>,
                      limit: int, offset: int, ghost search: string)
    returns (results: seq<Summary>)
    requires Grouping(Matching(t, Wanted(text, search)), gs)
    ensures IsPage(t, Wanted(text, search), allowed, limit, offset, results)
    ensures ListsPage(t, Found(t, text, search), allowed, limit, offset, results)
  {
    ghost var want := Wanted(text, search);
    var summaryMap, orderedSlugs := ScanGroups(gs, allowed);
    ScanIsOrdered(t, want, gs, orderedSlugs);
    var paged := CutPage(orderedSlugs, limit, offset);
    results := Render(Matching(t, want), gs, allowed, summaryMap, paged);
    SameSummaries(t, want, paged, allowed);
    PageIsListed(t, text, search, allowed, limit, offset, results);
  }

  /** The slugs with reactions that contain the search text, as ILIKE reads it. */
  ghost function Found(t: Table, text: Slug -> string, search: string): set<Slug> {
    set i | i in t && (search == "" || ILikeMatch("%" + search + "%", text(t[i].slug))) :: t[i].slug
  }

  ghost function Before(found: set<Slug>, slug: Slug): set<Slug> {
    set x | x in found && x < slug
  }

  /**
    A page by rank: entry i is the found slug that has offset + i others before it, with
    its true counts, and the page is full unless the found slugs run out; at most 100
    entries, 20 if the caller does not say.
  */
  ghost predicate ListsPage(t: Table, found: set<Slug>, allowed: set<Kind>, limit: int, offset: int,
                            page: seq<Summary>) {
    var start := if offset < 0 then 0 else offset;
    var size := if limit <= 0 then 20 else if limit > 100 then 100 else limit;
    && |page| <= size
    && (|page| < size ==> start + |page| == |found| || (start > |found| && page == []))
    && forall i | 0 <= i < |page| ::
         && page[i].slug in found && |Before(found, page[i].slug)| == start + i
         && page[i].totalCount == |RowsOf(t, page[i].slug)| && page[i].reactions == Counts(t, page[i].slug, allowed)
  }

  lemma {:induction false} AllDistinct(slugs: seq<Slug>)
    requires Increasing(slugs)
    ensures |set x | x in slugs| == |slugs|
  {
    if slugs != [] {
      var n := |slugs| - 1;
      AllDistinct(slugs[..n]);
      assert slugs == slugs[..n] + [slugs[n]];
      assert (set x | x in slugs) == (set x | x in slugs[..n]) + {slugs[n]};
    }
  }

  lemma RankInOrder(found: set<Slug>, slugs: seq<Slug>, i: nat)
    requires Increasing(slugs) && (forall x :: x in slugs <==> x in found) && i < |slugs|
    ensures |Before(found, slugs[i])| == i
  {
    AllDistinct(slugs[..i]);
    assert Before(found, slugs[i]) == set x | x in slugs[..i] by {
      forall x | x in Before(found, slugs[i]) ensures x in slugs[..i] {
        assert x in slugs;
        var j :| 0 <= j < |slugs| && slugs[j] == x;
        assert slugs[..i][j] == x;
      }
    }
  }

  lemma OrderedIsFound(t: Table, text: Slug -> string, search: string, slugs: seq<Slug>)
    requires Ordered(t, Wanted(text, search), slugs)
    ensures forall x :: x in slugs <==> x in Found(t, text, search)
    ensures |Found(t, text, search)| == |slugs|
  {
    var want, found := Wanted(text, search), Found(t, text, search);
    assert Wrapped(search) == "%" + search + "%";
    forall x ensures x in slugs <==> x in found {
      assert x in slugs <==> x in SlugsOf(t) && want(x);
    }
    assert found == set x | x in slugs;
    AllDistinct(slugs);
  }

  lemma WindowIsListed(t: Table, found: set<Slug>, allowed: set<Kind>, limit: int, offset: int, slugs: seq<Slug>)
    requires Increasing(slugs) && (forall x :: x in slugs <==> x in found) && |found| == |slugs|
    ensures ListsPage(t, found, allowed, limit, offset, SummariesOf(t, Window(slugs, limit, offset), allowed))
  {
    var start, window := Cut(|slugs|, offset), Window(slugs, limit, offset);
    forall i | 0 <= i < |window|
      ensures window[i] in found && |Before(found, window[i])| == start + i
    {
      RankInOrder(found, slugs, start + i);
    }
  }

  lemma PageIsListed(t: Table, text: Slug -> string, search: string, allowed: set<Kind>, limit: int, offset: int,
                     page: seq<Summary>)
    requires IsPage(t, Wanted(text, search), allowed, limit, offset, page)
    ensures ListsPage(t, Found(t, text, search), allowed, limit, offset, page)
  {
    var slugs :| Ordered(t, Wanted(text, search), slugs)
      && page == SummariesOf(t, Window(slugs, limit, offset), allowed);
    OrderedIsFound(t, text, search, slugs);
    WindowIsListed(t, Found(t, text, search), allowed, limit, offset, slugs);
  }

  /** The page, cut out of the slugs in memory. */
  method CutPage(orderedSlugs: seq<Slug>, limit: int, offset: int) returns (paged: seq<Slug>)
    ensures paged == Window(orderedSlugs, limit, offset)
    ensures forall x | x in paged :: x in orderedSlugs
  {
    var lim, off := limit, offset;
    if lim <= 0 {
      lim := 20;
    }
    if lim > 100 {
      lim := 100;
    }
    if off < 0 {
      off := 0;
    }
    var start := off;
    if start > |orderedSlugs| {
      start := |orderedSlugs|;
    }
    var end := start + lim;
    if end > |orderedSlugs| {
      end := |orderedSlugs|;
    }
    paged := orderedSlugs[start..end];
  }

  /** A search on the slug leaves the counts of what it finds whole. */
  lemma SameSummaries(t: Table, want: Slug -> bool, slugs: seq<Slug>, allowed: set<Kind>)
    requires forall x | x in slugs :: want(x)
    ensures SummariesOf(Matching(t, want), slugs, allowed) == SummariesOf(t, slugs, allowed)
  {
    forall i | 0 <= i < |slugs|
      ensures SummaryOf(Matching(t, want), slugs[i], allowed) == SummaryOf(t, slugs[i], allowed)
    {
      assert slugs[i] in slugs;
      SameCounts(t, want, slugs[i], allowed);
    }
  }

  lemma SameCounts(t: Table, want: Slug -> bool, slug: Slug, allowed: set<Kind>)
    requires want(slug)
    ensures var m := Matching(t, want);
            RowsOf(m, slug) == RowsOf(t, slug) && Counts(m, slug, allowed) == Counts(t, slug, allowed)
  {
    var m := Matching(t, want);
    assert forall k :: RowsOfKind(m, slug, k) == RowsOfKind(t, slug, k);
    assert KindsOf(m, slug) == KindsOf(t, slug) by {
      forall i | i in t && t[i].slug == slug
        ensures t[i].kind in KindsOf(m, slug)
      {
        assert i in m;
      }
    }
  }

  method Render(ghost t: Table, ghost gs: seq<Group>, ghost allowed: set<Kind>,
                summaryMap: map<Slug, map<Kind, nat>>, paged: seq<Slug>)
    returns (results: seq<Summary>)
    requires Grouping(t, gs)
    requires forall x | x in paged :: x in summaryMap && summaryMap[x] == Filled(gs, x, allowed)
    ensures results == SummariesOf(t, paged, allowed)
  {
    results := [];
    for i := 0 to |paged|
      invariant |results| == i
      invariant forall j | 0 <= j < i :: results[j] == SummaryOf(t, paged[j], allowed)
    {
      var slug := paged[i];
      assert slug in paged;
      FilledIsCounts(t, gs, slug, allowed);
      var total := SumCounts(t, slug, allowed, summaryMap[slug]);
      results := results + [Summary(slug, total, summaryMap[slug])];
    }
  }

  lemma ScanIsOrdered(t: Table, want: Slug -> bool, gs: seq<Group>, slugs: seq<Slug>)
    requires Grouping(Matching(t, want), gs) && Increasing(slugs)
    requires forall x :: x in slugs <==> exists j | 0 <= j < |gs| :: gs[j].slug == x
    ensures Ordered(t, want, slugs)
  {
    var m := Matching(t, want);
    forall x ensures x in slugs <==> x in SlugsOf(t) && want(x) {
      if x in slugs {
        var j :| 0 <= j < |gs| && gs[j].slug == x;
        assert Accurate(m, gs[j]);
        var i :| i in m && m[i].slug == x && m[i].kind == gs[j].kind;
        assert t[i].slug == x;
      }
      if x in SlugsOf(t) && want(x) {
        var i :| i in t && t[i].slug == x;
        assert i in m && Covered(gs, m[i].slug, m[i].kind);
      }
    }
  }

  /** There is only one such order, so pages fetched by separate queries agree on it. */
  lemma {:induction false} OrderUnique(a: seq<Slug>, b: seq<Slug>)
    requires Increasing(a) && Increasing(b) && forall x :: x in a <==> x in b
    ensures a == b
    decreases |a|
  {
    assert b != [] ==> b[0] in b;
    if a != [] {
      var m, n := |a| - 1, |b| - 1;
      assert a[m] in a && a[m] in b;
      assert n >= 0 && b[n] in b && b[n] in a;
      assert a[m] == b[n];
      forall x ensures x in a[..m] <==> x in b[..n] {
        if x in a[..m] { LastIsNotBefore(a, x); assert x in a && x in b; }
        if x in b[..n] { LastIsNotBefore(b, x); assert x in b && x in a; }
      }
      OrderUnique(a[..m], b[..n]);
    }
  }

  lemma LastIsNotBefore(a: seq<Slug>, x: Slug)
    requires Increasing(a) && a != [] && x in a[..|a| - 1]
    ensures x < a[|a| - 1]
  {}

  function Concat(pages: seq<seq<Summary>>, n: nat): seq<Summary>
    requires n <= |pages|
  {
    if n == 0 then [] else Concat(pages, n - 1) + pages[n - 1]
  }

  /** Page p of a listing that steps by the page size. */
  ghost predicate PageAt(t: Table, want: Slug -> bool, allowed: set<Kind>, limit: int, pages: seq<seq<Summary>>, p: nat)
    requires p < |pages|
  {
    IsPage(t, want, allowed, limit, p * PageLimit(limit), pages[p])
  }

  /**
    Consecutive pages of a fixed size, fetched by separate queries over one table,
    put together give the summaries of the first wanted slugs in order, each exactly
    once and with its full counts; with enough pages, of all wanted slugs.
  */
  lemma {:induction false} PagesConcatenate(t: Table, want: Slug -> bool, allowed: set<Kind>, limit: int,
                                            pages: seq<seq<Summary>>, n: nat, slugs: seq<Slug>)
    requires Ordered(t, want, slugs) && n <= |pages|
    requires forall p | 0 <= p < |pages| :: PageAt(t, want, allowed, limit, pages, p)
    ensures Concat(pages, n) == SummariesOf(t, slugs[..Cut(|slugs|, n * PageLimit(limit))], allowed)
    decreases n
  {
    if n > 0 {
      var offset := (n - 1) * PageLimit(limit);
      PagesConcatenate(t, want, allowed, limit, pages, n - 1, slugs);
      assert PageAt(t, want, allowed, limit, pages, n - 1);
      PageOfOrder(t, want, allowed, limit, offset, pages[n - 1], slugs);
      OneMorePage(n, PageLimit(limit));
      NextPrefix(slugs, limit, offset);
      SummariesConcat(t, slugs[..Cut(|slugs|, offset)], Window(slugs, limit, offset), allowed);
    }
  }

  lemma OneMorePage(n: nat, size: nat)
    ensures n * size == (n - 1) * size + size
  {}

  lemma PageOfOrder(t: Table, want: Slug -> bool, allowed: set<Kind>, limit: int, offset: int,
                    page: seq<Summary>, slugs: seq<Slug>)
    requires Ordered(t, want, slugs) && IsPage(t, want, allowed, limit, offset, page)
    ensures page == SummariesOf(t, Window(slugs, limit, offset), allowed)
  {
    var other :| Ordered(t, want, other) && page == SummariesOf(t, Window(other, limit, offset), allowed);
    OrderUnique(slugs, other);
  }

  lemma NextPrefix(slugs: seq<Slug>, limit: int, offset: nat)
    ensures slugs[..Cut(|slugs|, offset + PageLimit(limit))]
         == slugs[..Cut(|slugs|, offset)] + Window(slugs, limit, offset)
  {}

  lemma SummariesConcat(t: Table, a: seq<Slug>, b: seq<Slug>, allowed: set<Kind>)
    ensures SummariesOf(t, a + b, allowed) == SummariesOf(t, a, allowed) + SummariesOf(t, b, allowed)
  {}
}

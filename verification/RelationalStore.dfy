/**
  Users, admins, comments and what else refers to a user, under the foreign keys of
  internal/database/database.go and the checks of the comment service and the user
  repository.
*/
module RelationalStore {
  import opened Wrappers
  import opened Text

  type UserId = int
  type CommentId = int
  type Time = int

  const NIL_ID: int := 0
  const MAX_COMMENT_LENGTH := 2000

  datatype CommentRow = CommentRow(slug: string, user: UserId, parent: Option<CommentId>, content: string, at: Time)

  datatype AdminRow = AdminRow(superadmin: bool, createdBy: Option<UserId>)

  type Comments = map<CommentId, CommentRow>

  datatype Db = Db(
    users: set<UserId>,
    admins: map<UserId, AdminRow>,              // admin_users, keyed by its unique user_id
    comments: Comments,                         // post_comments
    reactions: map<(string, UserId), string>,   // post_reactions, unique per slug and user
    links: map<(string, string), UserId>,       // user_oauth_accounts, unique per provider and provider id
    pastes: map<string, Option<UserId>>,        // pastes by slug; the owner is set to NULL with the user
    clock: Time)

  datatype Error =
    | EmptySlug | EmptyComment | CommentTooLong
    | ParentNotFound | ParentOnOtherPost
    | CommentNotFound | UserNotFound | CannotDeleteSuperadmin
    | ForeignKey

  // ------------------------------------------------------- cascading deletes

  /** No reply of a listed comment is missing. */
  ghost predicate Closed(cs: Comments, s: set<CommentId>) {
    forall c | c in cs && cs[c].parent.Some? && cs[c].parent.value in s :: c in s
  }

  function RepliesTo(cs: Comments, s: set<CommentId>): set<CommentId> {
    set c | c in cs && c !in s && cs[c].parent.Some? && cs[c].parent.value in s
  }

  lemma RepliesShrink(cs: Comments, s: set<CommentId>)
    requires RepliesTo(cs, s) != {}
    ensures |cs.Keys - (s + RepliesTo(cs, s))| < |cs.Keys - s|
  {
    var next := RepliesTo(cs, s);
    var rest := cs.Keys - (s + next);
    assert cs.Keys - s == rest + next && rest !! next;
    assert |next| > 0;
  }

  /** The comments ON DELETE CASCADE removes when those of s are deleted. */
  function Cascade(cs: Comments, s: set<CommentId>): set<CommentId>
    decreases |cs.Keys - s|
  {
    var next := RepliesTo(cs, s);
    if next == {} then s
    else
      RepliesShrink(cs, s);
      Cascade(cs, s + next)
  }

  /** The cascade is the least set that holds s and is closed under replies. */
  lemma {:induction false} CascadeIsLeast(cs: Comments, s: set<CommentId>)
    ensures s <= Cascade(cs, s) <= s + cs.Keys && Closed(cs, Cascade(cs, s))
    ensures forall t: set<CommentId> | s <= t && Closed(cs, t) :: Cascade(cs, s) <= t
    decreases |cs.Keys - s|
  {
    var next := RepliesTo(cs, s);
    if next == {} {
      forall c | c in cs && cs[c].parent.Some? && cs[c].parent.value in s ensures c in s {
        assert c !in next;
      }
    } else {
      RepliesShrink(cs, s);
      CascadeIsLeast(cs, s + next);
      forall t: set<CommentId> | s <= t && Closed(cs, t) ensures Cascade(cs, s) <= t {
        forall c | c in next ensures c in t {
          assert c in cs && cs[c].parent.value in t;
        }
        assert s + next <= t;
      }
    }
  }

  function CommentsOf(cs: Comments, u: UserId): set<CommentId> {
    set c | c in cs && cs[c].user == u
  }

  // ---------------------------------------------------------------- the steps

  datatype Event =
    | AddUser(user: UserId)
    | AddAdmin(user: UserId, superadmin: bool, createdBy: Option<UserId>)
    | AddPaste(slug: string, owner: Option<UserId>)
    | React(slug: string, user: UserId, kind: string)
    | Link(provider: string, providerId: string, user: UserId)
    | Comment(slug: string, user: UserId, content: string, parent: Option<CommentId>, id: CommentId, at: Time)
    | DeleteOwn(id: CommentId, user: UserId)
    | DeleteAny(id: CommentId)
    | DeleteUser(user: UserId)

  /** The service's checks on the trimmed slug and content, in their order, then the foreign keys of the INSERT. */
  function CommentError(db: Db, slug: string, user: UserId, content: string, parent: Option<CommentId>): Option<Error> {
    if slug == "" then Some(EmptySlug)
    else if content == "" then Some(EmptyComment)
    else if |content| > MAX_COMMENT_LENGTH then Some(CommentTooLong)
    else if parent.Some? && parent.value != NIL_ID && parent.value !in db.comments then Some(ParentNotFound)
    else if parent.Some? && parent.value != NIL_ID && db.comments[parent.value].slug != slug
    then Some(ParentOnOtherPost)
    else if user !in db.users || (parent.Some? && parent.value !in db.comments) then Some(ForeignKey)
    else None
  }

  /** When a comment is refused with which error: the earlier checks have passed, and this one does not. */
  predicate RefusedWith(e: Error, db: Db, slug: string, user: UserId, content: string, parent: Option<CommentId>) {
    var readable := slug != "" && 0 < |content| <= 2000;
    var named := parent.Some? && parent.value != NIL_ID;
    match e
    case EmptySlug => slug == ""
    case EmptyComment => slug != "" && content == ""
    case CommentTooLong => slug != "" && |content| > 2000
    case ParentNotFound => readable && named && parent.value !in db.comments
    case ParentOnOtherPost => readable && named && parent.value in db.comments && db.comments[parent.value].slug != slug
    case ForeignKey =>
      && readable
      && (named ==> parent.value in db.comments && db.comments[parent.value].slug == slug)
      && (user !in db.users || (parent == Some(NIL_ID) && NIL_ID !in db.comments))
    case _ => false
  }

  function WithComment(db: Db, slug: string, u: UserId, content: string, parent: Option<CommentId>,
                       id: CommentId, at: Time): Db {
    if CommentError(db, slug, u, content, parent).Some? then db
    else db.(comments := db.comments[id := CommentRow(slug, u, parent, content, at)], clock := at)
  }

  function WithoutComments(db: Db, seed: set<CommentId>): Db {
    db.(comments := db.comments - Cascade(db.comments, seed))
  }

  /** created_by is cleared first; the DELETE then cascades through every table that refers to the user. */
  function WithoutUser(db: Db, u: UserId): Db {
    Db(db.users - {u},
       map k | k in db.admins && k != u ::
         if db.admins[k].createdBy == Some(u) then db.admins[k].(createdBy := None) else db.admins[k],
       db.comments - Cascade(db.comments, CommentsOf(db.comments, u)),
       map k | k in db.reactions && k.1 != u :: db.reactions[k],
       map k | k in db.links && db.links[k] != u :: db.links[k],
       map k | k in db.pastes :: if db.pastes[k] == Some(u) then None else db.pastes[k],
       db.clock)
  }

  predicate IsSuperadmin(db: Db, u: UserId) {
    u in db.admins && db.admins[u].superadmin
  }

  function Next(db: Db, e: Event): Db {
    match e
    case AddUser(u) => db.(users := db.users + {u})
    case AddAdmin(u, sup, creator) =>
      if u !in db.users || (creator.Some? && creator.value !in db.users) || u in db.admins then db
      else db.(admins := db.admins[u := AdminRow(sup, creator)])
    case AddPaste(slug, owner) =>
      if owner.Some? && owner.value !in db.users then db else db.(pastes := db.pastes[slug := owner])
    case React(slug, u, kind) => if u !in db.users then db else db.(reactions := db.reactions[(slug, u) := kind])
    case Link(p, pid, u) => if u !in db.users || (p, pid) in db.links then db else db.(links := db.links[(p, pid) := u])
    case Comment(slug, u, content, parent, id, at) =>
      WithComment(db, TrimSpace(slug), u, TrimSpace(content), parent, id, at)
    case DeleteOwn(id, u) => if id in db.comments && db.comments[id].user == u then WithoutComments(db, {id}) else db
    case DeleteAny(id) => if id in db.comments then WithoutComments(db, {id}) else db
    case DeleteUser(u) => if IsSuperadmin(db, u) || u !in db.users then db else WithoutUser(db, u)
  }

  /** New comment ids are fresh, and the clock does not run backwards. */
  predicate Legal(db: Db, e: Event) {
    e.Comment? ==> e.id !in db.comments && e.id != NIL_ID && db.clock <= e.at
  }

  // ------------------------------------------------------------ the invariant

  ghost predicate AdminsLive(users: set<UserId>, admins: map<UserId, AdminRow>) {
    forall k | k in admins :: k in users && (admins[k].createdBy.Some? ==> admins[k].createdBy.value in users)
  }

  ghost predicate ReactionsLive(users: set<UserId>, reactions: map<(string, UserId), string>) {
    forall k | k in reactions :: k.1 in users
  }

  ghost predicate LinksLive(users: set<UserId>, links: map<(string, string), UserId>) {
    forall k | k in links :: links[k] in users
  }

  ghost predicate PastesLive(users: set<UserId>, pastes: map<string, Option<UserId>>) {
    forall k | k in pastes :: pastes[k].Some? ==> pastes[k].value in users
  }

  ghost predicate AuthorsLive(users: set<UserId>, cs: Comments) {
    forall c | c in cs :: cs[c].user in users
  }

  /** Every reference to a user names a live one. */
  ghost predicate UsersLive(db: Db) {
    && AdminsLive(db.users, db.admins) && ReactionsLive(db.users, db.reactions) && LinksLive(db.users, db.links)
    && PastesLive(db.users, db.pastes) && AuthorsLive(db.users, db.comments)
  }

  /** A reply's parent is a live comment on the same post, and not newer. */
  ghost predicate RepliesOk(cs: Comments, clock: Time) {
    && NIL_ID !in cs
    && (forall c | c in cs :: cs[c].at <= clock)
    && forall c | c in cs && cs[c].parent.Some? ::
         var p := cs[c].parent.value; p in cs && cs[p].slug == cs[c].slug && cs[p].at <= cs[c].at
  }

  ghost predicate Ranked(cs: Comments, rank: map<CommentId, nat>) {
    && cs.Keys <= rank.Keys
    && forall c | c in cs && cs[c].parent.Some? :: cs[c].parent.value in rank && rank[cs[c].parent.value] < rank[c]
  }

  ghost predicate ThreadsOk(cs: Comments, clock: Time) {
    RepliesOk(cs, clock) && exists rank :: Ranked(cs, rank)
  }

  ghost predicate Inv(db: Db) {
    UsersLive(db) && ThreadsOk(db.comments, db.clock)
  }

  /** Deleting a closed set leaves every remaining reply its parent. */
  lemma ClosedDeleteOk(cs: Comments, s: set<CommentId>, clock: Time)
    requires ThreadsOk(cs, clock) && Closed(cs, s)
    ensures ThreadsOk(cs - s, clock)
  {
    var rank :| Ranked(cs, rank);
    assert Ranked(cs - s, rank);
  }

  lemma CommentKeepsInv(db: Db, slug: string, u: UserId, content: string, parent: Option<CommentId>,
                        id: CommentId, at: Time)
    requires Inv(db) && id !in db.comments && id != NIL_ID && db.clock <= at
    ensures Inv(WithComment(db, slug, u, content, parent, id, at))
  {
    if CommentError(db, slug, u, content, parent).None? {
      var cs := db.comments[id := CommentRow(slug, u, parent, content, at)];
      assert RepliesOk(cs, at);
      assert AuthorsLive(db.users, cs);
      var rank :| Ranked(db.comments, rank);
      assert Ranked(cs, rank[id := if parent.Some? then rank[parent.value] + 1 else 0]);
    }
  }

  lemma CommentsGone(cs: Comments, seed: set<CommentId>, users: set<UserId>, clock: Time)
    requires ThreadsOk(cs, clock) && AuthorsLive(users, cs)
    ensures ThreadsOk(cs - Cascade(cs, seed), clock) && AuthorsLive(users, cs - Cascade(cs, seed))
  {
    CascadeIsLeast(cs, seed);
    ClosedDeleteOk(cs, Cascade(cs, seed), clock);
  }

  lemma UserGoneAuthors(cs: Comments, users: set<UserId>, u: UserId)
    requires AuthorsLive(users, cs)
    ensures AuthorsLive(users - {u}, cs - Cascade(cs, CommentsOf(cs, u)))
  {
    CascadeIsLeast(cs, CommentsOf(cs, u));
    forall c | c in cs && c !in Cascade(cs, CommentsOf(cs, u)) ensures cs[c].user != u {
      assert c !in CommentsOf(cs, u);
    }
  }

  lemma UserGoneRefs(db: Db, u: UserId)
    requires UsersLive(db)
    ensures var db' := WithoutUser(db, u);
            && AdminsLive(db'.users, db'.admins) && ReactionsLive(db'.users, db'.reactions)
            && LinksLive(db'.users, db'.links) && PastesLive(db'.users, db'.pastes)
  {}

  lemma UserKeepsInv(db: Db, u: UserId)
    requires Inv(db)
    ensures Inv(WithoutUser(db, u))
  {
    CommentsGone(db.comments, CommentsOf(db.comments, u), db.users, db.clock);
    UserGoneAuthors(db.comments, db.users, u);
    UserGoneRefs(db, u);
  }

  /** The inserts that only have to name live users. */
  lemma InsertKeepsInv(db: Db, e: Event)
    requires Inv(db) && (e.AddUser? || e.AddAdmin? || e.AddPaste? || e.React? || e.Link?)
    ensures Inv(Next(db, e))
  {
    match e
    case AddUser(u) => MoreUsers(db, u);
    case _ => RowKeepsLive(db, e);
  }

  lemma RowKeepsLive(db: Db, e: Event)
    requires UsersLive(db) && (e.AddAdmin? || e.AddPaste? || e.React? || e.Link?)
    ensures UsersLive(Next(db, e))
  {
    match e
    case AddAdmin(u, sup, creator) =>
      if u in db.users && (creator.None? || creator.value in db.users) {
        MoreAdmins(db.users, db.admins, u, AdminRow(sup, creator));
      }
    case AddPaste(slug, owner) =>
      if owner.None? || owner.value in db.users { MorePastes(db.users, db.pastes, slug, owner); }
    case React(slug, u, kind) =>
      if u in db.users { MoreReactions(db.users, db.reactions, slug, u, kind); }
    case Link(p, pid, u) =>
      if u in db.users { MoreLinks(db.users, db.links, p, pid, u); }
  }

  lemma MoreAdmins(users: set<UserId>, admins: map<UserId, AdminRow>, u: UserId, row: AdminRow)
    requires AdminsLive(users, admins) && u in users && (row.createdBy.None? || row.createdBy.value in users)
    ensures AdminsLive(users, admins[u := row])
  {}

  lemma MorePastes(users: set<UserId>, pastes: map<string, Option<UserId>>, slug: string, owner: Option<UserId>)
    requires PastesLive(users, pastes) && (owner.None? || owner.value in users)
    ensures PastesLive(users, pastes[slug := owner])
  {}

  lemma MoreReactions(users: set<UserId>, reactions: map<(string, UserId), string>,
                      slug: string, u: UserId, kind: string)
    requires ReactionsLive(users, reactions) && u in users
    ensures ReactionsLive(users, reactions[(slug, u) := kind])
  {}

  lemma MoreLinks(users: set<UserId>, links: map<(string, string), UserId>, p: string, pid: string, u: UserId)
    requires LinksLive(users, links) && u in users
    ensures LinksLive(users, links[(p, pid) := u])
  {}

  lemma MoreUsers(db: Db, u: UserId)
    requires UsersLive(db)
    ensures UsersLive(db.(users := db.users + {u}))
  {}

  lemma NextKeepsInv(db: Db, e: Event)
    requires Inv(db) && Legal(db, e)
    ensures Inv(Next(db, e))
  {
    match e
    case Comment(slug, u, content, parent, id, at) =>
      CommentKeepsInv(db, TrimSpace(slug), u, TrimSpace(content), parent, id, at);
    case DeleteOwn(id, _) => CommentsGone(db.comments, {id}, db.users, db.clock);
    case DeleteAny(id) => CommentsGone(db.comments, {id}, db.users, db.clock);
    case DeleteUser(u) => UserKeepsInv(db, u);
    case _ => InsertKeepsInv(db, e);
  }

  ghost predicate LegalRun(db: Db, es: seq<Event>)
    decreases |es|
  {
    es == [] || (Legal(db, es[0]) && LegalRun(Next(db, es[0]), es[1..]))
  }

  function Run(db: Db, es: seq<Event>): Db
    decreases |es|
  {
    if es == [] then db else Run(Next(db, es[0]), es[1..])
  }

  lemma {:induction false} RunKeepsInv(db: Db, es: seq<Event>)
    requires Inv(db) && LegalRun(db, es)
    ensures Inv(Run(db, es))
    decreases |es|
  {
    if es != [] {
      NextKeepsInv(db, es[0]);
      RunKeepsInv(Next(db, es[0]), es[1..]);
    }
  }

  function Empty(clock: Time): Db {
    Db({}, map[], map[], map[], map[], map[], clock)
  }

  /** After any run every reference is live, and every parent is on the same post and not newer. */
  lemma ReferencesLive(es: seq<Event>, start: Time)
    requires LegalRun(Empty(start), es)
    ensures UsersLive(Run(Empty(start), es))
    ensures RepliesOk(Run(Empty(start), es).comments, Run(Empty(start), es).clock)
  {
    assert Ranked(map[], map[]);
    RunKeepsInv(Empty(start), es);
  }

  /** The n-th ancestor of a comment. */
  function Ancestor(cs: Comments, c: CommentId, n: nat): Option<CommentId>
    decreases n
  {
    if n == 0 then Some(c)
    else if c in cs && cs[c].parent.Some? then Ancestor(cs, cs[c].parent.value, n - 1)
    else None
  }

  lemma {:induction false} AncestorsRankLower(cs: Comments, c: CommentId, n: nat, rank: map<CommentId, nat>)
    requires Ranked(cs, rank) && c in rank && n > 0
    ensures var a := Ancestor(cs, c, n); a.Some? ==> a.value in rank && rank[a.value] < rank[c]
    decreases n
  {
    if c in cs && cs[c].parent.Some? && n > 1 {
      AncestorsRankLower(cs, cs[c].parent.value, n - 1, rank);
    }
  }

  /**
    In any reachable state a comment is taken exactly if slug and text are something
    after trimming, the text is not too long, its author lives, and what it answers is a
    live comment on the same post; then it is there as sent, and nothing else changes.
  */
  lemma CommentAccepted(es: seq<Event>, start: Time, slug: string, user: UserId, content: string,
                        parent: Option<CommentId>, id: CommentId, at: Time)
    requires LegalRun(Empty(start), es)
    requires Legal(Run(Empty(start), es), Comment(slug, user, content, parent, id, at))
    ensures var db := Run(Empty(start), es);
            var db' := Next(db, Comment(slug, user, content, parent, id, at));
            var s, c := TrimSpace(slug), TrimSpace(content);
            && (id in db'.comments <==>
                  && s != "" && 0 < |c| <= MAX_COMMENT_LENGTH && user in db.users
                  && (parent.Some? ==> parent.value in db.comments && db.comments[parent.value].slug == s))
            && db'.comments - {id} == db.comments
            && (id in db'.comments ==> db'.comments[id] == CommentRow(s, user, parent, c, at))
            && db'.(comments := db.comments, clock := db.clock) == db
  {
    assert Ranked(map[], map[]);
    RunKeepsInv(Empty(start), es);
    var s, c := TrimSpace(slug), TrimSpace(content);
    AcceptedIn(Run(Empty(start), es), s, user, c, parent, id, at);
  }

  lemma AcceptedIn(db: Db, s: string, user: UserId, c: string, parent: Option<CommentId>, id: CommentId, at: Time)
    requires NIL_ID !in db.comments && id !in db.comments
    ensures var db' := WithComment(db, s, user, c, parent, id, at);
            && (id in db'.comments <==>
                  && s != "" && 0 < |c| <= MAX_COMMENT_LENGTH && user in db.users
                  && (parent.Some? ==> parent.value in db.comments && db.comments[parent.value].slug == s))
            && db'.comments - {id} == db.comments
            && (id in db'.comments ==> db'.comments[id] == CommentRow(s, user, parent, c, at))
            && db'.(comments := db.comments, clock := db.clock) == db
  {}

  /** After any run no comment is above itself: threads are trees. */
  lemma ThreadsAcyclic(es: seq<Event>, start: Time, c: CommentId, n: nat)
    requires LegalRun(Empty(start), es) && n > 0
    ensures Ancestor(Run(Empty(start), es).comments, c, n) != Some(c)
  {
    assert Ranked(map[], map[]);
    RunKeepsInv(Empty(start), es);
    var cs := Run(Empty(start), es).comments;
    var rank :| Ranked(cs, rank);
    if c in cs {
      AncestorsRankLower(cs, c, n, rank);
    }
  }

  // ------------------------------------------------------- what a delete removes

  /** Everything deleting user u must remove: the user's comments and, from there, every reply. */
  ghost predicate UserClosed(db: Db, u: UserId, s: set<CommentId>) {
    CommentsOf(db.comments, u) <= s && Closed(db.comments, s)
  }

  /**
    Deleting a user removes exactly the least set of comments closed under the user
    and the parent cascade; the other comments are untouched, and so is every reaction
    and link of other users. Their admin rows only forget who made them admin, and no
    paste is lost, only its owner.
  */
  lemma DeleteUserRemovesLeast(db: Db, u: UserId)
    requires Inv(db) && u in db.users && !IsSuperadmin(db, u)
    ensures var db' := Next(db, DeleteUser(u));
            var gone := db.comments.Keys - db'.comments.Keys;
            && UserClosed(db, u, gone)
            && (forall s: set<CommentId> | UserClosed(db, u, s) :: gone <= s)
            && (forall c | c in db'.comments :: db'.comments[c] == db.comments[c])
            && db'.users == db.users - {u}
            && db'.reactions == (map k | k in db.reactions && k.1 != u :: db.reactions[k])
            && db'.links == (map k | k in db.links && db.links[k] != u :: db.links[k])
            && db'.admins.Keys == db.admins.Keys - {u}
            && (forall k | k in db'.admins ::
                  db'.admins[k] == db.admins[k] || db'.admins[k] == db.admins[k].(createdBy := None))
            && (forall k | k in db'.admins :: db'.admins[k] == db.admins[k] <==> db.admins[k].createdBy != Some(u))
            && db'.pastes.Keys == db.pastes.Keys
            && (forall k | k in db.pastes :: db'.pastes[k] == if db.pastes[k] == Some(u) then None else db.pastes[k])
  {
    var seed := CommentsOf(db.comments, u);
    CascadeIsLeast(db.comments, seed);
    var gone := db.comments.Keys - WithoutUser(db, u).comments.Keys;
    assert gone == Cascade(db.comments, seed);
  }

  /** From db to db' exactly the least reply-closed set with the comment in it goes. */
  ghost predicate RemovesThread(db: Db, db': Db, id: CommentId) {
    var gone := db.comments.Keys - db'.comments.Keys;
    && id in gone && Closed(db.comments, gone)
    && (forall s: set<CommentId> | id in s && Closed(db.comments, s) :: gone <= s)
    && (forall c | c in db'.comments :: c in db.comments && db'.comments[c] == db.comments[c])
    && db' == db.(comments := db'.comments)
  }

  /** Deleting a comment removes exactly its least reply-closed set, whoever wrote the replies. */
  lemma DeleteCommentRemovesLeast(db: Db, id: CommentId)
    requires id in db.comments
    ensures RemovesThread(db, Next(db, DeleteAny(id)), id)
    ensures Next(db, DeleteOwn(id, db.comments[id].user)) == Next(db, DeleteAny(id))
  {
    CascadeIsLeast(db.comments, {id});
    assert db.comments.Keys - Next(db, DeleteAny(id)).comments.Keys == Cascade(db.comments, {id});
  }

  // ------------------------------------------------------------- the services

  class Store {
    var db: Db

    constructor (start: Time)
      ensures db == Empty(start)
    {
      db := Empty(start);
    }

    /** DELETE FROM post_comments with the parent cascade, one generation of replies at a time. */
    method DeleteComments(seed: set<CommentId>)
      modifies this
      ensures db == WithoutComments(old(db), seed)
    {
      var gone := seed;
      var next := RepliesTo(db.comments, gone);
      while next != {}
        invariant db == old(db) && next == RepliesTo(db.comments, gone)
        invariant Cascade(db.comments, gone) == Cascade(db.comments, seed)
        decreases |db.comments.Keys - gone|
      {
        RepliesShrink(db.comments, gone);
        gone := gone + next;
        next := RepliesTo(db.comments, gone);
      }
      db := db.(comments := db.comments - gone);
      assert gone == Cascade(old(db).comments, seed);
    }

    /** The checks of the service and the foreign keys of the insert. */
    method CheckComment(s: string, user: UserId, c: string, parent: Option<CommentId>) returns (r: Option<Error>)
      ensures r == CommentError(db, s, user, c, parent)
      ensures forall e :: r == Some(e) <==> RefusedWith(e, db, s, user, c, parent)
      ensures r.None? <==>
                && s != "" && 0 < |c| <= MAX_COMMENT_LENGTH && user in db.users
                && (parent.Some? ==>
                      && parent.value in db.comments
                      && (parent.value != NIL_ID ==> db.comments[parent.value].slug == s))
    {
      if s == "" {
        return Some(EmptySlug);
      }
      if c == "" {
        return Some(EmptyComment);
      }
      if |c| > MAX_COMMENT_LENGTH {
        return Some(CommentTooLong);
      }
      if parent.Some? && parent.value != NIL_ID {
        if parent.value !in db.comments {
          return Some(ParentNotFound);
        }
        if db.comments[parent.value].slug != s {
          return Some(ParentOnOtherPost);
        }
      }
      if user !in db.users || (parent.Some? && parent.value !in db.comments) {
        return Some(ForeignKey);
      }
      return None;
    }

    method CreateComment(slug: string, user: UserId, content: string, parent: Option<CommentId>,
                         id: CommentId, now: Time)
      returns (r: Result<(), Error>)
      requires id !in db.comments && id != NIL_ID && db.clock <= now
      modifies this
      ensures db == Next(old(db), Event.Comment(slug, user, content, parent, id, now))
      ensures r == match CommentError(old(db), TrimSpace(slug), user, TrimSpace(content), parent)
                   case Some(e) => Err(e) case None => Ok(())
      ensures forall e :: r == Err(e) <==> RefusedWith(e, old(db), TrimSpace(slug), user, TrimSpace(content), parent)
      ensures db == if r.Err? then old(db)
                    else old(db).(comments := old(db).comments[
                                    id := CommentRow(TrimSpace(slug), user, parent, TrimSpace(content), now)],
                                  clock := now)
    {
      var s, c := TrimSpace(slug), TrimSpace(content);
      var error := CheckComment(s, user, c, parent);
      if error.Some? {
        return Err(error.value);
      }
      db := db.(comments := db.comments[id := CommentRow(s, user, parent, c, now)], clock := now);
      return Ok(());
    }

    method DeleteComment(id: CommentId, user: UserId) returns (r: Result<(), Error>)
      modifies this
      ensures db == Next(old(db), DeleteOwn(id, user))
      ensures r.Ok? <==> id in old(db).comments && old(db).comments[id].user == user
      ensures r.Err? ==> r.error == CommentNotFound && db == old(db)
      ensures r.Ok? ==> RemovesThread(old(db), db, id)
    {
      if id !in db.comments || db.comments[id].user != user {
        return Err(CommentNotFound);
      }
      DeleteCommentRemovesLeast(db, id);
      DeleteComments({id});
      return Ok(());
    }

    method AdminDelete(id: CommentId) returns (r: Result<(), Error>)
      modifies this
      ensures db == Next(old(db), DeleteAny(id))
      ensures r.Ok? <==> id in old(db).comments
      ensures r.Err? ==> r.error == CommentNotFound && db == old(db)
      ensures r.Ok? ==> RemovesThread(old(db), db, id)
    {
      if id !in db.comments {
        return Err(CommentNotFound);
      }
      DeleteCommentRemovesLeast(db, id);
      DeleteComments({id});
      return Ok(());
    }

    /**
      created_by has no cascade, so the row could not be deleted while an admin still
      names it; clearing the column first means that error never happens.
    */
    method DeleteUser(u: UserId) returns (r: Result<(), Error>)
      requires Inv(db)
      modifies this
      ensures db == Next(old(db), Event.DeleteUser(u))
      ensures r.Ok? <==> u in old(db).users && !IsSuperadmin(old(db), u)
      ensures r.Err? ==> db == old(db)
      ensures r == Err(CannotDeleteSuperadmin) <==> u in old(db).admins && old(db).admins[u].superadmin
      ensures r == Err(UserNotFound) <==> u !in old(db).users
    {
      if u in db.admins && db.admins[u].superadmin {
        return Err(CannotDeleteSuperadmin);
      }
      ghost var before := db;
      ClearCreator(u);
      if u !in db.users {
        return Err(UserNotFound);
      }
      if exists k | k in db.admins :: k != u && db.admins[k].createdBy == Some(u) {
        return Err(ForeignKey);
      }
      ClearedFirst(before, u);
      DeleteUserRow(u);
      return Ok(());
    }

    /** DELETE FROM users, with the cascades of every table that refers to the user. */
    method DeleteUserRow(u: UserId)
      requires forall k | k in db.admins && k != u :: db.admins[k].createdBy != Some(u)
      modifies this
      ensures db == WithoutUser(old(db), u)
    {
      DeleteComments(CommentsOf(db.comments, u));
      db := Db(db.users - {u},
               db.admins - {u},
               db.comments,
               map k | k in db.reactions && k.1 != u :: db.reactions[k],
               map k | k in db.links && db.links[k] != u :: db.links[k],
               map k | k in db.pastes :: if db.pastes[k] == Some(u) then None else db.pastes[k],
               db.clock);
      AdminsWithout(old(db).admins, u);
      assert db.admins == WithoutUser(old(db), u).admins;
    }

    /** UPDATE admin_users SET created_by = NULL WHERE created_by = u; without effect when u is not a user. */
    method ClearCreator(u: UserId)
      requires AdminsLive(db.users, db.admins)
      modifies this
      ensures db == old(db).(admins := Cleared(old(db).admins, u))
      ensures u !in db.users ==> db == old(db)
      ensures forall k | k in db.admins :: db.admins[k].createdBy != Some(u)
    {
      if u !in db.users {
        NobodyToClear(db.users, db.admins, u);
      }
      NobodyMadeBy(db.admins, u);
      db := db.(admins := Cleared(db.admins, u));
    }
  }

  lemma ClearedFirst(db: Db, u: UserId)
    ensures WithoutUser(db.(admins := Cleared(db.admins, u)), u) == WithoutUser(db, u)
  {}

  lemma AdminsWithout(admins: map<UserId, AdminRow>, u: UserId)
    requires forall k | k in admins && k != u :: admins[k].createdBy != Some(u)
    ensures admins - {u} == map k | k in admins && k != u ::
              if admins[k].createdBy == Some(u) then admins[k].(createdBy := None) else admins[k]
  {}

  lemma NobodyMadeBy(admins: map<UserId, AdminRow>, u: UserId)
    ensures forall k | k in Cleared(admins, u) :: Cleared(admins, u)[k].createdBy != Some(u)
  {}

  lemma NobodyToClear(users: set<UserId>, admins: map<UserId, AdminRow>, u: UserId)
    requires AdminsLive(users, admins) && u !in users
    ensures Cleared(admins, u) == admins
  {
    forall k | k in admins ensures admins[k].createdBy != Some(u) {
      assert admins[k].createdBy.Some? ==> admins[k].createdBy.value in users;
    }
  }

  function Cleared(admins: map<UserId, AdminRow>, u: UserId): map<UserId, AdminRow> {
    map k | k in admins :: if admins[k].createdBy == Some(u) then admins[k].(createdBy := None) else admins[k]
  }
}

/**
  Accounts and their OAuth links (internal/repository/user.go, internal/service/auth.go):
  who owns a provider's pair, who may log in with it, and what keeps every user
  able to log in. Every call is one atomic step.
*/
module OAuthIdentity {
  import opened Wrappers

  type UserId = string

  /** A provider with the id it knows the person by. */
  type Pair = (string, string)

  /** The columns of users that matter here; email and username are kept trimmed and in lower case. */
  datatype User = User(
    email: string, username: string, password: Option<string>,
    provider: string, providerId: Option<string>, active: bool)

  /** links is user_oauth_accounts, keyed by its unique (provider, provider_id). */
  datatype State = State(users: map<UserId, User>, links: map<Pair, UserId>)

  datatype Error =
    | UserNotFound | UserAlreadyExists | AccountLinked | ForeignKey
    | CannotUnlinkLastAuth | AccountNotFound
    | UnverifiedEmail | Deactivated

  // ------------------------------------------------------------- the lookups

  predicate HasPassword(u: User) {
    u.password.Some? && u.password.value != ""
  }

  /** The pair in the user's own row: the one the account was registered with. */
  predicate SignedUpWith(u: User, p: Pair) {
    u.provider == p.0 && u.providerId == Some(p.1)
  }

  function AccountsOf(links: map<Pair, UserId>, u: UserId): set<Pair> {
    set p | p in links && links[p] == u
  }

  ghost predicate Fallback(s: State, p: Pair, u: UserId) {
    u in s.users && SignedUpWith(s.users[u], p)
  }

  /** GetByOAuthAccount: the link table first, then the users' own columns. */
  ghost function Resolve(s: State, p: Pair): Option<UserId> {
    if p in s.links then Some(s.links[p])
    else if u :| Fallback(s, p, u) then Some(u)
    else None
  }

  ghost predicate HasEmail(s: State, email: string, u: UserId) {
    u in s.users && s.users[u].email == email
  }

  ghost function ByEmail(s: State, email: string): Option<UserId> {
    if u :| HasEmail(s, email, u) then Some(u) else None
  }

  // --------------------------------------------------------------- the calls

  /** The unique (user_id, provider) of the link table would be broken. */
  ghost predicate ProviderTaken(links: map<Pair, UserId>, u: UserId, provider: string) {
    exists p | p in links :: links[p] == u && p.0 == provider
  }

  ghost function LinkError(s: State, u: UserId, p: Pair): Option<Error> {
    if p in s.links then (if s.links[p] == u then None else Some(AccountLinked))
    else if u !in s.users then Some(ForeignKey)
    else if ProviderTaken(s.links, u, p.0) then Some(AccountLinked)
    else None
  }

  ghost function Linked(s: State, u: UserId, p: Pair): State {
    if LinkError(s, u, p).Some? then s else s.(links := s.links[p := u])
  }

  ghost function UnlinkError(s: State, u: UserId, provider: string): Option<Error> {
    if u !in s.users then Some(UserNotFound)
    else if !HasPassword(s.users[u]) && |AccountsOf(s.links, u)| <= 1 then Some(CannotUnlinkLastAuth)
    else if !ProviderTaken(s.links, u, provider) then Some(AccountNotFound)
    else None
  }

  function WithoutLinks(links: map<Pair, UserId>, u: UserId, provider: string): map<Pair, UserId> {
    map p | p in links && !(links[p] == u && p.0 == provider) :: links[p]
  }

  ghost function Unlinked(s: State, u: UserId, provider: string): State {
    if UnlinkError(s, u, provider).Some? then s else s.(links := WithoutLinks(s.links, u, provider))
  }

  ghost predicate Taken(s: State, email: string, username: string) {
    exists u | u in s.users :: s.users[u].email == email || s.users[u].username == username
  }

  /** Create: the row, and for an OAuth registration the link, whose error is ignored. */
  ghost function Created(s: State, id: UserId, user: User): State {
    if Taken(s, user.email, user.username) then s
    else
      var s' := s.(users := s.users[id := user]);
      if user.provider != "" && user.provider != "local" && user.providerId.Some?
      then Linked(s', id, (user.provider, user.providerId.value)) else s'
  }

  datatype Info = Info(pair: Pair, email: string, verified: bool)

  ghost function LoginResult(s: State, info: Info, id: UserId, username: string): Result<UserId, Error> {
    if !info.verified then Err(UnverifiedEmail)
    else
      match Resolve(s, info.pair)
      case Some(u) => if u in s.users && s.users[u].active then Ok(u) else Err(Deactivated)
      case None =>
        match ByEmail(s, info.email)
        case Some(u) => if u in s.users && s.users[u].active then Ok(u) else Err(Deactivated)
        case None => if Taken(s, info.email, username) then Err(UserAlreadyExists) else Ok(id)
  }

  function NewUser(info: Info, username: string): User {
    User(info.email, username, None, info.pair.0, Some(info.pair.1), true)
  }

  /** id and username are what a new account would get. Failures to link are ignored, as the service ignores them. */
  ghost function LoggedIn(s: State, info: Info, id: UserId, username: string): State {
    match LoginResult(s, info, id, username)
    case Err(_) => s
    case Ok(u) =>
      if Resolve(s, info.pair).Some? || ByEmail(s, info.email).Some? then Linked(s, u, info.pair)
      else Linked(Created(s, id, NewUser(info, username)), id, info.pair)
  }

  datatype Event =
    | Register(id: UserId, email: string, username: string, hash: string)
    | OAuthLogin(info: Info, id: UserId, username: string)
    | Link(user: UserId, pair: Pair)
    | Unlink(user: UserId, provider: string)
    | SetPassword(user: UserId, hash: string)
    | Change(user: UserId, email: string, username: string, active: bool)
    | Delete(user: UserId)

  /** New ids are fresh and password hashes are not empty. */
  predicate Legal(s: State, e: Event) {
    && (e.Register? ==> e.id !in s.users && e.hash != "")
    && (e.OAuthLogin? ==> e.id !in s.users)
    && (e.SetPassword? ==> e.hash != "")
  }

  /** Another user has the address or the name. */
  ghost predicate TakenByOther(s: State, user: UserId, email: string, username: string) {
    exists u | u in s.users && u != user :: s.users[u].email == email || s.users[u].username == username
  }

  ghost function Next(s: State, e: Event): State {
    match e
    case Register(id, email, username, hash) => Created(s, id, User(email, username, Some(hash), "local", None, true))
    case OAuthLogin(info, id, username) => LoggedIn(s, info, id, username)
    case Link(u, p) => Linked(s, u, p)
    case Unlink(u, provider) => Unlinked(s, u, provider)
    case SetPassword(u, hash) =>
      if u in s.users then s.(users := s.users[u := s.users[u].(password := Some(hash))]) else s
    case Change(u, email, username, active) =>
      if u !in s.users || TakenByOther(s, u, email, username) then s
      else s.(users := s.users[u := s.users[u].(email := email, username := username, active := active)])
    case Delete(u) => State(s.users - {u}, map p | p in s.links && s.links[p] != u :: s.links[p])
  }

  /** The pair is recorded for u, or it is recorded for nobody and u signed up with it. */
  predicate Matches(users: map<UserId, User>, links: map<Pair, UserId>, p: Pair, u: UserId) {
    && u in users
    && (if p in links then links[p] == u else users[u].provider == p.0 && users[u].providerId == Some(p.1))
  }

  /** What an OAuth login comes to, in the columns of the tables; newId is the id a new account would get. */
  ghost predicate LoginOutcome(users: map<UserId, User>, links: map<Pair, UserId>, info: Info, newId: UserId,
                               username: string, r: Result<UserId, Error>) {
    if !info.verified then r == Err(UnverifiedEmail)
    else if exists u :: Matches(users, links, info.pair, u) then
      forall u | Matches(users, links, info.pair, u) :: r == if users[u].active then Ok(u) else Err(Deactivated)
    else if exists u | u in users :: users[u].email == info.email then
      forall u | u in users && users[u].email == info.email ::
        r == if users[u].active then Ok(u) else Err(Deactivated)
    else if exists u | u in users :: users[u].username == username then r == Err(UserAlreadyExists)
    else r == Ok(newId)
  }

  class Service {
    var users: map<UserId, User>
    var links: map<Pair, UserId>

    ghost function Abs(): State
      reads this
    {
      State(users, links)
    }

    method LinkOAuthAccount(u: UserId, p: Pair) returns (r: Result<(), Error>)
      modifies this`links
      ensures Abs() == Linked(old(Abs()), u, p)
      ensures r == match LinkError(old(Abs()), u, p) case Some(e) => Err(e) case None => Ok(())
      ensures r.Ok? <==>
                if p in old(links) then old(links)[p] == u
                else u in users && forall q | q in old(links) && old(links)[q] == u :: q.0 != p.0
      ensures links == if r.Ok? then old(links)[p := u] else old(links)
      ensures r == Err(ForeignKey) <==> p !in old(links) && u !in users
    {
      if p in links && links[p] != u {
        return Err(AccountLinked);
      }
      if p in links {
        // ON CONFLICT: only the address and the avatar are refreshed
        assert links[p := u] == links;
        return Ok(());
      }
      if u !in users {
        return Err(ForeignKey);
      }
      if exists q | q in links :: links[q] == u && q.0 == p.0 {
        return Err(AccountLinked);
      }
      links := links[p := u];
      return Ok(());
    }

    method UnlinkOAuthAccount(u: UserId, provider: string) returns (r: Result<(), Error>)
      modifies this`links
      ensures Abs() == Unlinked(old(Abs()), u, provider)
      ensures r == match UnlinkError(old(Abs()), u, provider) case Some(e) => Err(e) case None => Ok(())
      ensures r == Err(UserNotFound) <==> u !in users
      ensures r == Err(CannotUnlinkLastAuth) <==>
                && u in users && users[u].password in {None, Some("")}
                && |set p | p in old(links) && old(links)[p] == u| <= 1
      ensures r.Ok? ==> exists p | p in old(links) :: old(links)[p] == u && p.0 == provider
      ensures forall p :: p in links <==> p in old(links) && !(r.Ok? && old(links)[p] == u && p.0 == provider)
      ensures forall p | p in links :: links[p] == old(links)[p]
    {
      if u !in users {
        return Err(UserNotFound);
      }
      var accounts := AccountsOf(links, u);
      var hasPassword := users[u].password.Some? && users[u].password.value != "";
      if !hasPassword && |accounts| <= 1 {
        return Err(CannotUnlinkLastAuth);
      }
      var affected := set p | p in links && links[p] == u && p.0 == provider;
      assert affected != {} <==> ProviderTaken(links, u, provider) by {
        if ProviderTaken(links, u, provider) {
          var p :| p in links && links[p] == u && p.0 == provider;
          assert p in affected;
        }
      }
      if affected == {} {
        return Err(AccountNotFound);
      }
      links := WithoutLinks(links, u, provider);
      return Ok(());
    }

    method CreateUser(id: UserId, user: User) returns (ok: bool)
      requires id !in users
      modifies this
      ensures Abs() == Created(old(Abs()), id, user)
      ensures ok <==> !Taken(old(Abs()), user.email, user.username)
      ensures ok <==> forall u | u in old(users) ::
                        old(users)[u].email != user.email && old(users)[u].username != user.username
      ensures users == if ok then old(users)[id := user] else old(users)
      ensures forall p | p in old(links) :: p in links && links[p] == old(links)[p]
      ensures forall p | p in links && p !in old(links) ::
                ok && links[p] == id && user.provider == p.0 && user.providerId == Some(p.1)
    {
      if exists u | u in users :: users[u].email == user.email || users[u].username == user.username {
        return false;
      }
      users := users[id := user];
      if user.provider != "" && user.provider != "local" && user.providerId.Some? {
        var _ := LinkOAuthAccount(id, (user.provider, user.providerId.value));
      }
      return true;
    }

    method HandleOAuthLogin(info: Info, id: UserId, username: string) returns (r: Result<UserId, Error>)
      requires Inv(Abs()) && id !in users
      modifies this
      ensures Abs() == LoggedIn(old(Abs()), info, id, username)
      ensures r == LoginResult(old(Abs()), info, id, username)
      ensures LoginOutcome(old(users), old(links), info, id, username, r)
      ensures r.Err? ==> users == old(users) && links == old(links)
    {
      LoginIsDecided(Abs(), info, id, username);
      if !info.verified {
        return Err(UnverifiedEmail);
      }
      var found := GetByOAuthAccount(info.pair);
      if found.Some? {
        if !users[found.value].active {
          return Err(Deactivated);
        }
        var _ := LinkOAuthAccount(found.value, info.pair);
        return Ok(found.value);
      }
      if u :| u in users && users[u].email == info.email {
        EmailIs(Abs(), info.email, u);
        if !users[u].active {
          return Err(Deactivated);
        }
        var _ := LinkOAuthAccount(u, info.pair);
        return Ok(u);
      }
      assert ByEmail(Abs(), info.email) == None;
      var ok := CreateUser(id, User(info.email, username, None, info.pair.0, Some(info.pair.1), true));
      if !ok {
        return Err(UserAlreadyExists);
      }
      var _ := LinkOAuthAccount(id, info.pair);
      return Ok(id);
    }

    method GetByOAuthAccount(p: Pair) returns (r: Option<UserId>)
      requires Inv(Abs())
      ensures r == Resolve(Abs(), p)
      ensures r.Some? ==> Matches(users, links, p, r.value)
      ensures r.None? ==> forall u :: !Matches(users, links, p, u)
    {
      if p in links {
        return Some(links[p]);
      }
      if u :| u in users && users[u].provider == p.0 && users[u].providerId == Some(p.1) {
        FallbackIs(Abs(), p, u);
        return Some(u);
      }
      assert forall u :: !Fallback(Abs(), p, u);
      return None;
    }
  }

  // ------------------------------------------------------------ the invariant

  ghost predicate LinksOk(s: State) {
    && (forall p | p in s.links :: s.links[p] in s.users)
    && (forall p, q | p in s.links && q in s.links && s.links[p] == s.links[q] && p.0 == q.0 :: p == q)
  }

  ghost predicate UsersUnique(us: map<UserId, User>) {
    && (forall u, v | u in us && v in us && us[u].email == us[v].email :: u == v)
    && (forall u, v | u in us && v in us && us[u].username == us[v].username :: u == v)
    && (forall u, v | u in us && v in us && us[u].providerId.Some? && us[u].provider == us[v].provider
                      && us[u].providerId == us[v].providerId :: u == v)
  }

  ghost predicate Reachable(s: State, u: UserId)
    requires u in s.users
  {
    HasPassword(s.users[u]) || exists p :: p in s.links && s.links[p] == u
  }

  ghost predicate Inv(s: State) {
    && LinksOk(s) && UsersUnique(s.users)
    && forall u | u in s.users :: Reachable(s, u)
  }

  lemma FallbackIs(s: State, p: Pair, u: UserId)
    requires UsersUnique(s.users) && p !in s.links && Fallback(s, p, u)
    ensures Resolve(s, p) == Some(u)
  {}

  lemma EmailIs(s: State, email: string, u: UserId)
    requires UsersUnique(s.users) && HasEmail(s, email, u)
    ensures ByEmail(s, email) == Some(u)
  {}

  lemma LinkedInv(s: State, u: UserId, p: Pair)
    requires LinksOk(s)
    ensures LinksOk(Linked(s, u, p))
    ensures forall q | q in s.links :: q in Linked(s, u, p).links && Linked(s, u, p).links[q] == s.links[q]
    ensures Linked(s, u, p).users == s.users
  {}

  lemma ReachableMore(s: State, s': State, u: UserId)
    requires u in s.users && u in s'.users && Reachable(s, u)
    requires HasPassword(s.users[u]) ==> HasPassword(s'.users[u])
    requires forall q | q in s.links :: q in s'.links && s'.links[q] == s.links[q]
    ensures Reachable(s', u)
  {
    if !HasPassword(s.users[u]) {
      var p :| p in s.links && s.links[p] == u;
      assert p in s'.links && s'.links[p] == u;
    }
  }

  lemma LinkKeepsInv(s: State, u: UserId, p: Pair)
    requires Inv(s)
    ensures Inv(Linked(s, u, p))
  {
    LinkedInv(s, u, p);
    forall v | v in s.users ensures Reachable(Linked(s, u, p), v) {
      ReachableMore(s, Linked(s, u, p), v);
    }
  }

  /** A user with two links and no password keeps one of them: a provider has at most one. */
  lemma UnlinkKeepsReachable(s: State, u: UserId, provider: string, v: UserId)
    requires Inv(s) && UnlinkError(s, u, provider).None? && v in s.users
    ensures Reachable(Unlinked(s, u, provider), v)
  {
    var s' := Unlinked(s, u, provider);
    assert Reachable(s, v);
    if !HasPassword(s.users[v]) {
      if v == u {
        var accounts := AccountsOf(s.links, u);
        var p :| p in s.links && s.links[p] == u && p.0 == provider;
        var others := accounts - {p};
        assert accounts == others + {p};
        assert others != {};
        var q :| q in others;
        assert q in s'.links && s'.links[q] == u;
      } else {
        var p :| p in s.links && s.links[p] == v;
        assert p in s'.links && s'.links[p] == v;
      }
    }
  }

  lemma UnlinkKeepsInv(s: State, u: UserId, provider: string)
    requires Inv(s)
    ensures Inv(Unlinked(s, u, provider))
  {
    if UnlinkError(s, u, provider).None? {
      forall v | v in s.users ensures Reachable(Unlinked(s, u, provider), v) {
        UnlinkKeepsReachable(s, u, provider, v);
      }
    }
  }

  /** A new account is able to log in: it has a password, or its pair could be linked. */
  lemma RegisteredInv(s: State, id: UserId, user: User)
    requires Inv(s) && id !in s.users && HasPassword(user) && user.provider == "local" && user.providerId.None?
    ensures Inv(Created(s, id, user))
  {
    var s' := Created(s, id, user);
    if !Taken(s, user.email, user.username) {
      assert UsersUnique(s'.users);
      forall v | v in s'.users ensures Reachable(s', v) {
        if v != id {
          ReachableMore(s, s', v);
        }
      }
    }
  }

  lemma NewAccountLinked(s: State, id: UserId, user: User, p: Pair)
    requires LinksOk(s) && id !in s.users && !Taken(s, user.email, user.username)
    requires SignedUpWith(user, p) && p !in s.links
    ensures Linked(Created(s, id, user), id, p) == State(s.users[id := user], s.links[p := id])
  {
    var s1 := s.(users := s.users[id := user]);
    forall q | q in s.links ensures s.links[q] != id {}
    assert !ProviderTaken(s1.links, id, p.0);
    assert Linked(s1, id, p) == State(s.users[id := user], s.links[p := id]);
    assert s.links[p := id][p := id] == s.links[p := id];
  }

  lemma OneMoreUser(us: map<UserId, User>, id: UserId, user: User)
    requires UsersUnique(us) && id !in us
    requires forall u | u in us :: us[u].email != user.email && us[u].username != user.username
    requires forall u | u in us ::
               user.providerId.Some? ==> !(us[u].provider == user.provider && us[u].providerId == user.providerId)
    ensures UsersUnique(us[id := user])
  {}

  lemma SignupInv(s: State, info: Info, id: UserId, username: string)
    requires Inv(s) && id !in s.users && Resolve(s, info.pair).None? && !Taken(s, info.email, username)
    ensures Inv(Linked(Created(s, id, NewUser(info, username)), id, info.pair))
  {
    var p, user := info.pair, NewUser(info, username);
    NewAccountLinked(s, id, user, p);
    var s' := State(s.users[id := user], s.links[p := id]);
    assert forall u | u in s.users :: !Fallback(s, p, u);
    OneMoreUser(s.users, id, user);
    forall v | v in s'.users ensures Reachable(s', v) {
      if v == id {
        assert p in s'.links && s'.links[p] == id;
      } else {
        ReachableMore(s, s', v);
      }
    }
  }

  lemma LoginKeepsInv(s: State, info: Info, id: UserId, username: string)
    requires Inv(s) && id !in s.users
    ensures Inv(LoggedIn(s, info, id, username))
  {
    var r := LoginResult(s, info, id, username);
    if r.Ok? {
      if Resolve(s, info.pair).Some? || ByEmail(s, info.email).Some? {
        LinkKeepsInv(s, r.value, info.pair);
      } else {
        SignupInv(s, info, id, username);
      }
    }
  }

  lemma ChangeKeepsInv(s: State, u: UserId, user: User)
    requires Inv(s) && u in s.users
    requires user.provider == s.users[u].provider && user.providerId == s.users[u].providerId
    requires HasPassword(s.users[u]) ==> HasPassword(user)
    requires forall v | v in s.users && v != u :: s.users[v].email != user.email && s.users[v].username != user.username
    ensures Inv(s.(users := s.users[u := user]))
  {
    var s' := s.(users := s.users[u := user]);
    assert UsersUnique(s'.users);
    forall v | v in s'.users ensures Reachable(s', v) {
      ReachableMore(s, s', v);
    }
  }

  lemma DeleteKeepsInv(s: State, u: UserId)
    requires Inv(s)
    ensures Inv(Next(s, Delete(u)))
  {
    var s' := Next(s, Delete(u));
    forall v | v in s'.users ensures Reachable(s', v) {
      if !HasPassword(s.users[v]) {
        assert Reachable(s, v);
        var p :| p in s.links && s.links[p] == v;
        assert p in s'.links && s'.links[p] == v;
      }
    }
  }

  lemma NextKeepsInv(s: State, e: Event)
    requires Inv(s) && Legal(s, e)
    ensures Inv(Next(s, e))
  {
    match e
    case Register(id, email, username, hash) =>
      RegisteredInv(s, id, User(email, username, Some(hash), "local", None, true));
    case OAuthLogin(info, id, username) => LoginKeepsInv(s, info, id, username);
    case Link(u, p) => LinkKeepsInv(s, u, p);
    case Unlink(u, provider) => UnlinkKeepsInv(s, u, provider);
    case SetPassword(u, hash) =>
      if u in s.users { ChangeKeepsInv(s, u, s.users[u].(password := Some(hash))); }
    case Change(u, email, username, active) =>
      if u in s.users && !TakenByOther(s, u, email, username) {
        ChangeKeepsInv(s, u, s.users[u].(email := email, username := username, active := active));
      }
    case Delete(u) => DeleteKeepsInv(s, u);
  }

  ghost predicate LegalRun(s: State, es: seq<Event>)
    decreases |es|
  {
    es == [] || (Legal(s, es[0]) && LegalRun(Next(s, es[0]), es[1..]))
  }

  ghost function Run(s: State, es: seq<Event>): State
    decreases |es|
  {
    if es == [] then s else Run(Next(s, es[0]), es[1..])
  }

  lemma {:induction false} RunKeepsInv(s: State, es: seq<Event>)
    requires Inv(s) && LegalRun(s, es)
    ensures Inv(Run(s, es))
    decreases |es|
  {
    if es != [] {
      NextKeepsInv(s, es[0]);
      RunKeepsInv(Next(s, es[0]), es[1..]);
    }
  }

  /** In every reachable state every user has a password or a link, and every link an owner. */
  lemma EveryUserCanLogIn(es: seq<Event>, u: UserId)
    requires LegalRun(State(map[], map[]), es)
    requires u in Run(State(map[], map[]), es).users
    ensures var s := Run(State(map[], map[]), es);
            HasPassword(s.users[u]) || exists p :: p in s.links && s.links[p] == u
  {
    RunKeepsInv(State(map[], map[]), es);
    assert Reachable(Run(State(map[], map[]), es), u);
  }

  // ----------------------------------------------------------- ownership

  /** Only its owner's unlinking or deletion ends the ownership of a pair. */
  predicate Releases(e: Event, p: Pair, u: UserId) {
    (e.Unlink? && e.user == u && e.provider == p.0) || (e.Delete? && e.user == u)
  }

  lemma CreatedKeepsLinks(s: State, id: UserId, user: User, q: Pair)
    requires LinksOk(s) && id !in s.users && q in s.links
    ensures LinksOk(Created(s, id, user))
    ensures q in Created(s, id, user).links && Created(s, id, user).links[q] == s.links[q]
  {
    var s1 := s.(users := s.users[id := user]);
    if user.providerId.Some? {
      LinkedInv(s1, id, (user.provider, user.providerId.value));
    }
  }

  lemma OwnerStays(s: State, e: Event, p: Pair, u: UserId)
    requires Inv(s) && Legal(s, e) && p in s.links && s.links[p] == u && !Releases(e, p, u)
    ensures p in Next(s, e).links && Next(s, e).links[p] == u
  {
    match e
    case Register(id, email, username, hash) =>
      CreatedKeepsLinks(s, id, User(email, username, Some(hash), "local", None, true), p);
    case OAuthLogin(info, id, username) =>
      var r := LoginResult(s, info, id, username);
      if r.Ok? {
        LinkedInv(s, r.value, info.pair);
        CreatedKeepsLinks(s, id, NewUser(info, username), p);
        LinkedInv(Created(s, id, NewUser(info, username)), id, info.pair);
      }
    case Link(v, q) => LinkedInv(s, v, q);
    case _ =>
  }

  lemma {:induction false} OwnerStaysInRun(s: State, es: seq<Event>, p: Pair, u: UserId)
    requires Inv(s) && LegalRun(s, es) && p in s.links && s.links[p] == u
    requires forall e | e in es :: !Releases(e, p, u)
    ensures var s' := Run(s, es); p in s'.links && s'.links[p] == u
    decreases |es|
  {
    if es != [] {
      OwnerStays(s, es[0], p, u);
      NextKeepsInv(s, es[0]);
      OwnerStaysInRun(Next(s, es[0]), es[1..], p, u);
    }
  }

  /**
    Once a pair is recorded for a user, every later OAuth login with it is a login of
    that user, or a refusal because the account is deactivated, until the user
    unlinks the provider or is deleted.
  */
  lemma LoginReachesOwner(history: seq<Event>, es: seq<Event>, p: Pair, u: UserId,
                          info: Info, id: UserId, username: string)
    requires LegalRun(State(map[], map[]), history)
    requires var s := Run(State(map[], map[]), history); p in s.links && s.links[p] == u && LegalRun(s, es)
    requires forall e | e in es :: !Releases(e, p, u)
    requires info.pair == p && info.verified
    ensures var s := Run(Run(State(map[], map[]), history), es);
            u in s.users && LoginResult(s, info, id, username) == if s.users[u].active then Ok(u) else Err(Deactivated)
  {
    var s0 := Run(State(map[], map[]), history);
    RunKeepsInv(State(map[], map[]), history);
    OwnerStaysInRun(s0, es, p, u);
    RunKeepsInv(s0, es);
  }

  /**
    After unlinking, a pair still resolves to a user if and only if that user signed
    up with it: the user's own columns are not cleared.
  */
  lemma UnlinkedPairResolves(s: State, u: UserId, p: Pair, v: UserId)
    requires Inv(s) && p in s.links && s.links[p] == u && UnlinkError(s, u, p.0).None?
    ensures Resolve(Unlinked(s, u, p.0), p) == Some(v) <==> v in s.users && SignedUpWith(s.users[v], p)
  {
    var s' := Unlinked(s, u, p.0);
    assert p !in s'.links;
    if v in s.users && SignedUpWith(s.users[v], p) {
      assert Fallback(s', p, v);
      FallbackIs(s', p, v);
    }
  }

  /** So a user who unlinks the provider of the registration can still log in with it, and is linked again. */
  lemma SignupPairComesBack(s: State, u: UserId, info: Info, id: UserId, username: string)
    requires Inv(s) && info.pair in s.links && s.links[info.pair] == u && UnlinkError(s, u, info.pair.0).None?
    requires SignedUpWith(s.users[u], info.pair) && s.users[u].active && info.verified
    ensures var s' := Unlinked(s, u, info.pair.0);
            LoginResult(s', info, id, username) == Ok(u) && LoggedIn(s', info, id, username) == s
  {
    var p := info.pair;
    var s' := Unlinked(s, u, p.0);
    UnlinkedPairResolves(s, u, p, u);
    forall q | q in s.links && s.links[q] == u && q.0 == p.0 ensures q == p {}
    assert s'.links[p := u] == s.links;
  }

  /**
    What a successful login leaves behind: an active user, the only new one if any, to
    whom the pair resolves from now on exactly if it did resolve, or the user had no
    other account of that provider.
  */
  lemma LoginSettlesPair(s: State, info: Info, id: UserId, username: string)
    requires Inv(s) && id !in s.users && LoginResult(s, info, id, username).Ok?
    ensures var u, s' := LoginResult(s, info, id, username).value, LoggedIn(s, info, id, username);
            && info.verified && u in s'.users && s'.users[u].active
            && s'.users == (if u in s.users then s.users else s.users[u := NewUser(info, username)])
            && (Resolve(s', info.pair) == Some(u) <==>
                  Resolve(s, info.pair).Some? || !ProviderTaken(s.links, u, info.pair.0))
  {
    var u, s' := LoginResult(s, info, id, username).value, LoggedIn(s, info, id, username);
    var p := info.pair;
    if Resolve(s, p).Some? {
      ResolvedStays(s, p, u);
    } else if ByEmail(s, info.email).Some? {
      forall v
        ensures !Fallback(Linked(s, u, p), p, v)
      {
        assert !Fallback(s, p, v);
      }
    } else {
      assert u == id && !ProviderTaken(s.links, u, p.0);
      NewAccountLinked(s, id, NewUser(info, username), p);
    }
  }

  lemma ResolvedStays(s: State, p: Pair, u: UserId)
    requires Inv(s) && Resolve(s, p) == Some(u)
    ensures Resolve(Linked(s, u, p), p) == Some(u)
  {
    if p !in s.links && p !in Linked(s, u, p).links {
      assert Fallback(s, p, u);
      FallbackIs(Linked(s, u, p), p, u);
    }
  }

  /** In any state that keeps the invariant the login decides as the tables say. */
  lemma LoginIsDecided(s: State, info: Info, id: UserId, username: string)
    requires Inv(s) && id !in s.users
    ensures LoginOutcome(s.users, s.links, info, id, username, LoginResult(s, info, id, username))
  {
    if info.verified {
      MatchResolves(s, info.pair);
      if Resolve(s, info.pair).None? {
        AddressResolves(s, info.email);
      }
    }
  }

  lemma MatchResolves(s: State, p: Pair)
    requires Inv(s)
    ensures forall u :: Matches(s.users, s.links, p, u) <==> Resolve(s, p) == Some(u)
  {
    forall u
      ensures Matches(s.users, s.links, p, u) <==> Resolve(s, p) == Some(u)
    {
      if p !in s.links {
        assert Matches(s.users, s.links, p, u) <==> Fallback(s, p, u);
        if Fallback(s, p, u) {
          FallbackIs(s, p, u);
        }
      }
    }
  }

  lemma AddressResolves(s: State, email: string)
    requires Inv(s)
    ensures forall u :: u in s.users && s.users[u].email == email <==> ByEmail(s, email) == Some(u)
  {
    forall u
      ensures u in s.users && s.users[u].email == email <==> ByEmail(s, email) == Some(u)
    {
      if HasEmail(s, email, u) {
        EmailIs(s, email, u);
      }
    }
  }
}

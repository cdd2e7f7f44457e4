/**
  The filtered list queries (internal/repository: post.go, user.go, log.go, paste.go,
  comment.go, storage.go). Each builder appends conditions and arguments side by
  side, numbering placeholders as it goes; each is held to the filter it means.
*/
module ListQueries {
  import opened Wrappers
  import opened Text
  import opened LikePattern
  import opened SqlBuilder

  function Clamp(limit: int, fallback: int, most: int): int {
    if limit <= 0 then fallback else if limit > most then most else limit
  }

  function NonNegative(offset: int): int {
    if offset < 0 then 0 else offset
  }

  /** Some of these columns matches the search text. */
  ghost predicate Found(text: string, row: Row, cols: seq<Column>) {
    exists col | col in cols :: Cell(row, col).Str? && ILikeMatch(Wrapped(text), Cell(row, col).s)
  }

  lemma FoundInThree(text: string, a: Column, b: Column, c: Column, n: int, args: seq<Value>)
    requires 1 <= n <= |args| && args[n - 1] == Str(Wrapped(text))
    ensures var cond := AnyOfThree(ILike(a, n), ILike(b, n), ILike(c, n));
            && Placeholders(cond) == {n} && Bound(cond, args)
            && forall row: Row, now :: Holds(cond, row, args, now) <==> Found(text, row, [a, b, c])
  {
    AnyOfThreeHolds(ILike(a, n), ILike(b, n), ILike(c, n), args);
    assert forall col | col in [a, b, c] :: col == a || col == b || col == c;
    assert a in [a, b, c] && b in [a, b, c] && c in [a, b, c];
  }

  lemma FoundInTwo(text: string, a: Column, b: Column, n: int, args: seq<Value>)
    requires 1 <= n <= |args| && args[n - 1] == Str(Wrapped(text))
    ensures var cond := Either(ILike(a, n), ILike(b, n));
            && Placeholders(cond) == {n} && Bound(cond, args)
            && forall row: Row, now :: Holds(cond, row, args, now) <==> Found(text, row, [a, b])
  {
    EitherHolds(ILike(a, n), ILike(b, n), args);
    assert forall col | col in [a, b] :: col == a || col == b;
    assert a in [a, b] && b in [a, b];
  }

  /** The search clause over three columns, or none when nothing was typed. */
  lemma SearchThree(text: string, where: seq<Cond>, args: seq<Value>, a: Column, b: Column, c: Column,
                    f: Filter, g: Filter)
    requires Denotes(where, args, f)
    requires forall row: Row, now :: g(row, now) <==> f(row, now) && (text != "" ==> Found(text, row, [a, b, c]))
    ensures var n := |args| + 1;
            Denotes(if text != "" then where + [AnyOfThree(ILike(a, n), ILike(b, n), ILike(c, n))] else where,
                    if text != "" then args + [Str(Wrapped(text))] else args, g)
  {
    var n := |args| + 1;
    FoundInThree(text, a, b, c, n, args + [Str(Wrapped(text))]);
    Optional(text != "", where, args, AnyOfThree(ILike(a, n), ILike(b, n), ILike(c, n)), Str(Wrapped(text)), f, g);
  }

  lemma SearchTwo(text: string, where: seq<Cond>, args: seq<Value>, a: Column, b: Column, f: Filter, g: Filter)
    requires Denotes(where, args, f)
    requires forall row: Row, now :: g(row, now) <==> f(row, now) && (text != "" ==> Found(text, row, [a, b]))
    ensures var n := |args| + 1;
            Denotes(if text != "" then where + [Either(ILike(a, n), ILike(b, n))] else where,
                    if text != "" then args + [Str(Wrapped(text))] else args, g)
  {
    var n := |args| + 1;
    FoundInTwo(text, a, b, n, args + [Str(Wrapped(text))]);
    Optional(text != "", where, args, Either(ILike(a, n), ILike(b, n)), Str(Wrapped(text)), f, g);
  }

  lemma SearchOne(text: string, where: seq<Cond>, args: seq<Value>, a: Column, f: Filter, g: Filter)
    requires Denotes(where, args, f)
    requires forall row: Row, now :: g(row, now) <==> f(row, now) && (text != "" ==> Found(text, row, [a]))
    ensures Denotes(if text != "" then where + [ILike(a, |args| + 1)] else where,
                    if text != "" then args + [Str(Wrapped(text))] else args, g)
  {
    assert a in [a] && forall col | col in [a] :: col == a;
    Optional(text != "", where, args, ILike(a, |args| + 1), Str(Wrapped(text)), f, g);
  }

  // ------------------------------------------------------------------ posts

  ghost predicate PostWanted(publishedOnly: Option<bool>, tag: string, search: string, row: Row) {
    && (publishedOnly == Some(true) ==> Cell(row, IsPublished) == Bool(true))
    && (tag != "" ==> Member(Str(tag), Cell(row, Tags)))
    && (search != "" ==> Found(search, row, [Title, Description, Slug]))
  }

  method ListPosts(publishedOnly: Option<bool>, tag: string, search: string, limit: int, offset: int)
    returns (q: ListQuery)
    ensures Pages(q, if limit <= 0 then 50 else limit, NonNegative(offset))
    ensures forall row: Row, now :: Finds(q, row, now) <==> PostWanted(publishedOnly, tag, search, row)
  {
    var lim := if limit <= 0 then 50 else limit;
    var off := if offset < 0 then 0 else offset;
    var conditions: seq<Cond> := [];
    var args: seq<Value> := [];
    var argIdx := 1;
    ghost var f0: Filter := (row, now) => PostWanted(None, "", "", row);
    NoClauses(f0);

    ghost var f1: Filter := (row, now) => PostWanted(publishedOnly, "", "", row);
    OptionalBare(publishedOnly == Some(true), conditions, args, IsTrue(IsPublished), f0, f1);
    if publishedOnly.Some? && publishedOnly.value {
      conditions := conditions + [IsTrue(IsPublished)];
    }
    assert Denotes(conditions, args, f1) && argIdx == |args| + 1;

    ghost var f2: Filter := (row, now) => PostWanted(publishedOnly, tag, "", row);
    Optional(tag != "", conditions, args, AnyOf(argIdx, Tags), Str(tag), f1, f2);
    if tag != "" {
      conditions := conditions + [AnyOf(argIdx, Tags)];
      args := args + [Str(tag)];
      argIdx := argIdx + 1;
    }
    assert Denotes(conditions, args, f2) && argIdx == |args| + 1;

    ghost var f3: Filter := (row, now) => PostWanted(publishedOnly, tag, search, row);
    SearchThree(search, conditions, args, Title, Description, Slug, f2, f3);
    if search != "" {
      conditions := conditions + [AnyOfThree(ILike(Title, argIdx), ILike(Description, argIdx), ILike(Slug, argIdx))];
      args := args + [Str(Wrapped(search))];
      argIdx := argIdx + 1;
    }
    assert Denotes(conditions, args, f3) && argIdx == |args| + 1;

    Finish(conditions, args, argIdx, lim, off, f3);
    q := ListQuery(conditions, args, args + [Num(lim), Num(off)], argIdx, argIdx + 1);
  }

  // ------------------------------------------------------------------- logs

  ghost predicate LogWanted(level: string, search: string, traceId: string, row: Row) {
    && (level != "" ==> Cell(row, Level) == Str(level))
    && (search != "" ==> Found(search, row, [Message, Component]))
    && (traceId != "" ==> Cell(row, TraceId) == Str(traceId))
  }

  method GetLogs(limit: int, offset: int, level: string, search: string, traceId: string) returns (q: ListQuery)
    ensures Pages(q, Clamp(limit, 50, 200), NonNegative(offset))
    ensures forall row: Row, now :: Finds(q, row, now) <==> LogWanted(level, search, traceId, row)
  {
    var lim, off := limit, offset;
    if lim <= 0 {
      lim := 50;
    }
    if lim > 200 {
      lim := 200;
    }
    if off < 0 {
      off := 0;
    }
    assert lim == Clamp(limit, 50, 200) && off == NonNegative(offset);
    var where: seq<Cond> := [Always];
    var args: seq<Value> := [];
    var argIdx := 1;
    ghost var f0: Filter := (row, now) => LogWanted("", "", "", row);
    NoClauses(f0);

    ghost var f1: Filter := (row, now) => LogWanted(level, "", "", row);
    Optional(level != "", where, args, Equals(Level, argIdx), Str(level), f0, f1);
    if level != "" {
      where := where + [Equals(Level, argIdx)];
      args := args + [Str(level)];
      argIdx := argIdx + 1;
    }
    assert Denotes(where, args, f1) && argIdx == |args| + 1;

    ghost var f2: Filter := (row, now) => LogWanted(level, search, "", row);
    SearchTwo(search, where, args, Message, Component, f1, f2);
    if search != "" {
      where := where + [Either(ILike(Message, argIdx), ILike(Component, argIdx))];
      args := args + [Str(Wrapped(search))];
      argIdx := argIdx + 1;
    }
    assert Denotes(where, args, f2) && argIdx == |args| + 1;

    ghost var f3: Filter := (row, now) => LogWanted(level, search, traceId, row);
    Optional(traceId != "", where, args, Equals(TraceId, argIdx), Str(traceId), f2, f3);
    if traceId != "" {
      where := where + [Equals(TraceId, argIdx)];
      args := args + [Str(traceId)];
      argIdx := argIdx + 1;
    }
    assert Denotes(where, args, f3) && argIdx == |args| + 1;

    Finish(where, args, argIdx, lim, off, f3);
    q := ListQuery(where, args, args + [Num(lim), Num(off)], argIdx, argIdx + 1);
  }

  // ----------------------------------------------------------------- pastes

  /** The clause col = $n for an optional value. */
  lemma OptionalEquals(o: Option<string>, where: seq<Cond>, args: seq<Value>, col: Column, f: Filter, g: Filter)
    requires Denotes(where, args, f)
    requires forall row: Row, now :: g(row, now) <==> f(row, now) && (o.Some? ==> Cell(row, col) == Str(o.value))
    ensures Denotes(if o.Some? then where + [Equals(col, |args| + 1)] else where,
                    if o.Some? then args + [Str(o.value)] else args, g)
  {
    var v := if o.Some? then Str(o.value) else Null;
    Optional(o.Some?, where, args, Equals(col, |args| + 1), v, f, g);
  }

  ghost predicate PasteWanted(search: string, syntax: Option<string>, publicOnly: Option<bool>, userId: Option<string>,
                              row: Row, now: int) {
    && (Cell(row, ExpiresAt) == Null || (Cell(row, ExpiresAt).Num? && Cell(row, ExpiresAt).n > now))
    && Cell(row, BurnAfterRead) == Bool(false)
    && (publicOnly == Some(true) ==> Cell(row, IsPublic) == Bool(true))
    && (syntax.Some? ==> Cell(row, Syntax) == Str(syntax.value))
    && (userId.Some? ==> Cell(row, UserId) == Str(userId.value))
    && (search != "" ==> Found(search, row, [Title, Slug]))
  }

  ghost function PasteFilter(search: string, syntax: Option<string>, publicOnly: Option<bool>,
                             userId: Option<string>): Filter {
    (row, now) => PasteWanted(search, syntax, publicOnly, userId, row, now)
  }

  /** syntax as it is compared: trimmed and in lower case, if any was given. */
  function SyntaxOf(syntax: string): Option<string> {
    if syntax != "" then Some(ToLower(TrimSpace(syntax))) else None
  }

  /** The fixed conditions, and those on visibility, syntax and owner. */
  method PasteConditions(syntax: string, publicOnly: Option<bool>, userId: Option<string>)
    returns (conditions: seq<Cond>, args: seq<Value>, argIdx: int)
    ensures Denotes(conditions, args, PasteFilter("", SyntaxOf(syntax), publicOnly, userId))
    ensures argIdx == |args| + 1
  {
    conditions := [Unexpired(ExpiresAt), IsFalse(BurnAfterRead)];
    args := [];
    argIdx := 1;
    ghost var f0 := PasteFilter("", None, None, None);
    PasteStart(f0);

    ghost var f1 := PasteFilter("", None, publicOnly, None);
    OptionalBare(publicOnly == Some(true), conditions, args, IsTrue(IsPublic), f0, f1);
    if publicOnly.Some? && publicOnly.value {
      conditions := conditions + [IsTrue(IsPublic)];
    }
    assert Denotes(conditions, args, f1) && argIdx == |args| + 1;

    ghost var f2 := PasteFilter("", SyntaxOf(syntax), publicOnly, None);
    OptionalEquals(SyntaxOf(syntax), conditions, args, Syntax, f1, f2);
    if syntax != "" {
      conditions := conditions + [Equals(Syntax, argIdx)];
      args := args + [Str(ToLower(TrimSpace(syntax)))];
      argIdx := argIdx + 1;
    }
    assert Denotes(conditions, args, f2) && argIdx == |args| + 1;

    OptionalEquals(userId, conditions, args, UserId, f2, PasteFilter("", SyntaxOf(syntax), publicOnly, userId));
    if userId.Some? {
      conditions := conditions + [Equals(UserId, argIdx)];
      args := args + [Str(userId.value)];
      argIdx := argIdx + 1;
    }
  }

  method ListPastes(search: string, syntax: string, publicOnly: Option<bool>, userId: Option<string>,
                    limit: int, offset: int) returns (q: ListQuery)
    ensures Pages(q, if limit <= 0 then 50 else limit, NonNegative(offset))
    ensures forall row: Row, now :: Finds(q, row, now) <==>
              PasteWanted(search, SyntaxOf(syntax), publicOnly, userId, row, now)
  {
    var lim := if limit <= 0 then 50 else limit;
    var off := if offset < 0 then 0 else offset;
    var conditions, args, argIdx := PasteConditions(syntax, publicOnly, userId);
    ghost var f := PasteFilter("", SyntaxOf(syntax), publicOnly, userId);
    ghost var g := PasteFilter(search, SyntaxOf(syntax), publicOnly, userId);
    SearchTwo(search, conditions, args, Title, Slug, f, g);
    if search != "" {
      conditions := conditions + [Either(ILike(Title, argIdx), ILike(Slug, argIdx))];
      args := args + [Str(Wrapped(search))];
      argIdx := argIdx + 1;
    }
    assert Denotes(conditions, args, g) && argIdx == |args| + 1;

    Finish(conditions, args, argIdx, lim, off, g);
    q := ListQuery(conditions, args, args + [Num(lim), Num(off)], argIdx, argIdx + 1);
  }

  lemma PasteStart(f: Filter)
    requires forall row: Row, now :: f(row, now) <==> PasteWanted("", None, None, None, row, now)
    ensures Denotes([Unexpired(ExpiresAt), IsFalse(BurnAfterRead)], [], f)
  {
    AppendBare([], [], Unexpired(ExpiresAt));
    assert [] + [Unexpired(ExpiresAt)] == [Unexpired(ExpiresAt)];
    AppendBare([Unexpired(ExpiresAt)], [], IsFalse(BurnAfterRead));
    assert [Unexpired(ExpiresAt)] + [IsFalse(BurnAfterRead)] == [Unexpired(ExpiresAt), IsFalse(BurnAfterRead)];
  }

  // --------------------------------------------------------------- comments

  /** Rows of post_comments joined to their author. */
  ghost predicate CommentWanted(postSlug: string, search: string, row: Row) {
    && (postSlug != "" ==> Cell(row, PostSlug) == Str(postSlug))
    && (search != "" ==> Found(search, row, [Content, Username, FullName]))
  }

  method ListAllComments(limit: int, offset: int, postSlug: string, search: string) returns (q: ListQuery)
    ensures Pages(q, Clamp(limit, 20, 100), NonNegative(offset))
    ensures forall row: Row, now :: Finds(q, row, now) <==> CommentWanted(postSlug, search, row)
  {
    var lim, off := limit, offset;
    if lim <= 0 {
      lim := 20;
    }
    if lim > 100 {
      lim := 100;
    }
    if off < 0 {
      off := 0;
    }
    assert lim == Clamp(limit, 20, 100) && off == NonNegative(offset);
    var where: seq<Cond> := [Always];
    var args: seq<Value> := [];
    var argIdx := 1;
    ghost var f0: Filter := (row, now) => CommentWanted("", "", row);
    NoClauses(f0);

    ghost var f1: Filter := (row, now) => CommentWanted(postSlug, "", row);
    Optional(postSlug != "", where, args, Equals(PostSlug, argIdx), Str(postSlug), f0, f1);
    if postSlug != "" {
      where := where + [Equals(PostSlug, argIdx)];
      args := args + [Str(postSlug)];
      argIdx := argIdx + 1;
    }
    assert Denotes(where, args, f1) && argIdx == |args| + 1;

    ghost var f2: Filter := (row, now) => CommentWanted(postSlug, search, row);
    SearchThree(search, where, args, Content, Username, FullName, f1, f2);
    if search != "" {
      where := where + [AnyOfThree(ILike(Content, argIdx), ILike(Username, argIdx), ILike(FullName, argIdx))];
      args := args + [Str(Wrapped(search))];
      argIdx := argIdx + 1;
    }
    assert Denotes(where, args, f2) && argIdx == |args| + 1;

    Finish(where, args, argIdx, lim, off, f2);
    q := ListQuery(where, args, args + [Num(lim), Num(off)], argIdx, argIdx + 1);
  }

  // ------------------------------------------------------------------ files

  ghost predicate FileWanted(search: string, backend: string, row: Row) {
    && (search != "" ==> Found(search, row, [Filename]))
    && (backend != "" && backend != "all" ==>
          (if Cell(row, StorageBackend) == Null then Str("local") else Cell(row, StorageBackend)) == Str(backend))
  }

  method ListFiles(limit: int, offset: int, search: string, backend: string) returns (q: ListQuery)
    ensures Pages(q, Clamp(limit, 20, 100), NonNegative(offset))
    ensures forall row: Row, now :: Finds(q, row, now) <==> FileWanted(search, backend, row)
  {
    var lim, off := limit, offset;
    if lim <= 0 {
      lim := 20;
    }
    if lim > 100 {
      lim := 100;
    }
    if off < 0 {
      off := 0;
    }
    assert lim == Clamp(limit, 20, 100) && off == NonNegative(offset);
    var where: seq<Cond> := [Always];
    var args: seq<Value> := [];
    var argIdx := 1;
    ghost var f0: Filter := (row, now) => FileWanted("", "", row);
    NoClauses(f0);

    ghost var f1: Filter := (row, now) => FileWanted(search, "", row);
    SearchOne(search, where, args, Filename, f0, f1);
    if search != "" {
      where := where + [ILike(Filename, argIdx)];
      args := args + [Str(Wrapped(search))];
      argIdx := argIdx + 1;
    }
    assert Denotes(where, args, f1) && argIdx == |args| + 1;

    ghost var f2: Filter := (row, now) => FileWanted(search, backend, row);
    Optional(backend != "" && backend != "all", where, args, EqualsOr(StorageBackend, "local", argIdx), Str(backend),
             f1, f2);
    if backend != "" && backend != "all" {
      where := where + [EqualsOr(StorageBackend, "local", argIdx)];
      args := args + [Str(backend)];
      argIdx := argIdx + 1;
    }
    assert Denotes(where, args, f2) && argIdx == |args| + 1;

    Finish(where, args, argIdx, lim, off, f2);
    q := ListQuery(where, args, args + [Num(lim), Num(off)], argIdx, argIdx + 1);
  }

  // ------------------------------------------------------------------ users

  ghost predicate FoundLower(text: string, row: Row, cols: seq<Column>) {
    exists col | col in cols :: Cell(row, col).Str? && LikeMatch(Wrapped(ToLower(text)), ToLower(Cell(row, col).s))
  }

  /**
    name and provider are trimmed. LinkedProviders is the list the EXISTS subquery over
    user_oauth_accounts ranges over.
  */
  ghost predicate UserWanted(name: string, provider: string, row: Row) {
    && (name != "" ==> FoundLower(name, row, [Username, Email, FullName]))
    && (provider != "" ==>
          Cell(row, Provider) == Str(ToLower(provider)) || Member(Str(ToLower(provider)), Cell(row, LinkedProviders)))
  }

  lemma SearchUsers(text: string, where: seq<Cond>, args: seq<Value>, f: Filter, g: Filter)
    requires Denotes(where, args, f)
    requires forall row: Row, now ::
               g(row, now) <==> f(row, now) && (text != "" ==> FoundLower(text, row, [Username, Email, FullName]))
    ensures var n := |args| + 1;
            Denotes(if text != ""
                    then where + [AnyOfThree(LowerLike(Username, n), LowerLike(Email, n), LowerLike(FullName, n))]
                    else where,
                    if text != "" then args + [Str(Wrapped(ToLower(text)))] else args, g)
  {
    var n, v := |args| + 1, Str(Wrapped(ToLower(text)));
    AnyOfThreeHolds(LowerLike(Username, n), LowerLike(Email, n), LowerLike(FullName, n), args + [v]);
    var cols := [Username, Email, FullName];
    assert forall col | col in cols :: col == Username || col == Email || col == FullName;
    assert cols[0] in cols && cols[1] in cols && cols[2] in cols;
    Optional(text != "", where, args,
             AnyOfThree(LowerLike(Username, n), LowerLike(Email, n), LowerLike(FullName, n)), v, f, g);
  }

  lemma ByProvider(provider: string, where: seq<Cond>, args: seq<Value>, f: Filter, g: Filter)
    requires Denotes(where, args, f)
    requires forall row: Row, now :: g(row, now) <==> f(row, now) && (provider != "" ==>
               || Cell(row, Provider) == Str(ToLower(provider))
               || Member(Str(ToLower(provider)), Cell(row, LinkedProviders)))
    ensures var n := |args| + 1;
            Denotes(if provider != "" then where + [Either(Equals(Provider, n), AnyOf(n, LinkedProviders))] else where,
                    if provider != "" then args + [Str(ToLower(provider))] else args, g)
  {
    var n, v := |args| + 1, Str(ToLower(provider));
    EitherHolds(Equals(Provider, n), AnyOf(n, LinkedProviders), args + [v]);
    Optional(provider != "", where, args, Either(Equals(Provider, n), AnyOf(n, LinkedProviders)), v, f, g);
  }

  method ListUsers(search: string, provider: string, limit: int, offset: int) returns (q: ListQuery)
    ensures Pages(q, Clamp(limit, 20, 100), NonNegative(offset))
    ensures forall row: Row, now :: Finds(q, row, now) <==> UserWanted(TrimSpace(search), TrimSpace(provider), row)
  {
    var lim, off := limit, offset;
    if lim <= 0 {
      lim := 20;
    }
    if lim > 100 {
      lim := 100;
    }
    if off < 0 {
      off := 0;
    }
    assert lim == Clamp(limit, 20, 100) && off == NonNegative(offset);
    var where: seq<Cond> := [Always];
    var args: seq<Value> := [];
    var argIdx := 1;
    var s := TrimSpace(search);
    var p := TrimSpace(provider);
    ghost var f0: Filter := (row, now) => UserWanted("", "", row);
    NoClauses(f0);

    ghost var f1: Filter := (row, now) => UserWanted(s, "", row);
    SearchUsers(s, where, args, f0, f1);
    if s != "" {
      where := where + [AnyOfThree(LowerLike(Username, argIdx), LowerLike(Email, argIdx), LowerLike(FullName, argIdx))];
      args := args + [Str(Wrapped(ToLower(s)))];
      argIdx := argIdx + 1;
    }
    assert Denotes(where, args, f1) && argIdx == |args| + 1;

    ghost var f2: Filter := (row, now) => UserWanted(s, p, row);
    ByProvider(p, where, args, f1, f2);
    if p != "" {
      where := where + [Either(Equals(Provider, argIdx), AnyOf(argIdx, LinkedProviders))];
      args := args + [Str(ToLower(p))];
      argIdx := argIdx + 1;
    }
    assert Denotes(where, args, f2) && argIdx == |args| + 1;

    Finish(where, args, argIdx, lim, off, f2);
    q := ListQuery(where, args, args + [Num(lim), Num(off)], argIdx, argIdx + 1);
  }

  /** A row of user_oauth_accounts. */
  datatype Account = Account(userId: string, provider: string)

  /** The providers of the accounts that belong to a user. */
  function ProvidersOf(accounts: seq<Account>, userId: string): seq<string> {
    if accounts == [] then []
    else (if accounts[0].userId == userId then [accounts[0].provider] else []) + ProvidersOf(accounts[1..], userId)
  }

  lemma {:induction false} ProvidersOfMembers(accounts: seq<Account>, userId: string, provider: string)
    ensures provider in ProvidersOf(accounts, userId) <==> Account(userId, provider) in accounts
    decreases |accounts|
  {
    if accounts != [] {
      ProvidersOfMembers(accounts[1..], userId, provider);
      assert accounts == [accounts[0]] + accounts[1..];
    }
  }

  /** A users row as the EXISTS subquery sees it: with the providers of its accounts. */
  function Joined(user: Row, accounts: seq<Account>): Row {
    user[LinkedProviders := List(if Cell(user, Id).Str? then ProvidersOf(accounts, Cell(user, Id).s) else [])]
  }

  /** Over the two tables: the provider filter asks for the user's own provider or an account of the user. */
  lemma WantedOverAccounts(name: string, provider: string, user: Row, accounts: seq<Account>)
    requires Cell(user, Id).Str?
    ensures UserWanted(name, provider, Joined(user, accounts)) <==>
              && (name != "" ==> FoundLower(name, user, [Username, Email, FullName]))
              && (provider != "" ==>
                    || Cell(user, Provider) == Str(ToLower(provider))
                    || exists a | a in accounts :: a.userId == Cell(user, Id).s && a.provider == ToLower(provider))
  {
    var row, id, p := Joined(user, accounts), Cell(user, Id).s, ToLower(provider);
    ProvidersOfMembers(accounts, id, p);
    assert forall col | col != LinkedProviders :: Cell(row, col) == Cell(user, col);
    assert Account(id, p) in accounts <==> exists a | a in accounts :: a.userId == id && a.provider == p;
  }
}

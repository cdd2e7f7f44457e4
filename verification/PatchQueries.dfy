/**
  The partial updates (internal/repository/post.go UpdatePost, user.go UpdateUser):
  a SET list over the supplied fields only, then the key as the last argument.
*/
module PatchQueries {
  import opened Wrappers
  import opened Text
  import opened SqlBuilder

  type Patch = map<Column, Value>

  /** The patch p with an optional field added. */
  function With(p: Patch, col: Column, v: Option<Value>): Patch {
    if v.Some? then p[col := v.value] else p
  }

  function StrOf(s: Option<string>): Option<Value> {
    if s.Some? then Some(Str(s.value)) else None
  }

  /** The statement changes exactly the columns of the patch, one assignment for each. */
  ghost predicate Builds(sets: seq<Assign>, args: seq<Value>, now: int, patch: Patch) {
    SetsBound(sets, args) && Changes(sets, args, now) == patch && |patch| == |sets|
  }

  lemma {:induction false} ChangesKeys(sets: seq<Assign>, args: seq<Value>, now: int)
    requires SetsBound(sets, args)
    ensures |Changes(sets, args, now)| <= |sets|
    ensures forall i | 0 <= i < |sets| :: sets[i].col in Changes(sets, args, now)
  {
    if sets != [] {
      var n := |sets| - 1;
      ChangesKeys(sets[..n], args, now);
      var before, all := Changes(sets[..n], args, now), Changes(sets, args, now);
      assert all.Keys == before.Keys + {sets[n].col};
      assert |all| == |all.Keys| && |before| == |before.Keys|;
      forall i | 0 <= i < |sets| ensures sets[i].col in all {
        assert i < n ==> sets[..n][i].col in before;
      }
    }
  }

  lemma NoGrowth<T>(a: set<T>, x: T)
    requires x in a
    ensures |a + {x}| == |a|
  {
    assert a + {x} == a;
  }

  /** As many columns as assignments: PostgreSQL does not see a column assigned twice. */
  lemma {:induction false} BuildsDistinct(sets: seq<Assign>, args: seq<Value>, now: int, patch: Patch)
    requires Builds(sets, args, now, patch)
    ensures DistinctColumns(sets)
  {
    if sets != [] {
      var n := |sets| - 1;
      var before := Changes(sets[..n], args, now);
      ChangesKeys(sets[..n], args, now);
      assert patch.Keys == before.Keys + {sets[n].col};
      assert |patch| == |patch.Keys| && |before| == |before.Keys|;
      var last := sets[n].col;
      if last in before {
        NoGrowth(before.Keys, last);
        assert false;
      }
      BuildsDistinct(sets[..n], args, now, before);
      forall i, j | 0 <= i < j < |sets| ensures sets[i].col != sets[j].col {
        assert sets[..n][i] == sets[i] && sets[..n][i].col in before;
        assert j < n ==> sets[..n][j] == sets[j];
      }
    }
  }

  lemma NoSets(now: int)
    ensures Builds([], [], now, map[])
  {}

  lemma AddSet(sets: seq<Assign>, args: seq<Value>, now: int, patch: Patch, col: Column, v: Value)
    requires Builds(sets, args, now, patch) && col !in patch
    ensures Builds(sets + [Assign(col, |args| + 1)], args + [v], now, patch[col := v])
  {
    AppendSet(sets, args, col, v, now);
    assert patch[col := v].Keys == patch.Keys + {col};
    assert |patch[col := v]| == |patch[col := v].Keys|;
  }

  /** The three statements every supplied field runs: the clause, its argument, the next number. */
  method Supply(sets: seq<Assign>, args: seq<Value>, argIdx: int, col: Column, v: Value,
                ghost now: int, ghost patch: Patch)
    returns (sets': seq<Assign>, args': seq<Value>, argIdx': int)
    requires Builds(sets, args, now, patch) && argIdx == |args| + 1 && col !in patch
    ensures Builds(sets', args', now, patch[col := v]) && argIdx' == |args'| + 1
  {
    AddSet(sets, args, now, patch, col, v);
    sets' := sets + [Assign(col, argIdx)];
    args' := args + [v];
    argIdx' := argIdx + 1;
  }

  lemma StampSet(sets: seq<Assign>, args: seq<Value>, now: int, patch: Patch, col: Column)
    requires Builds(sets, args, now, patch) && col !in patch
    ensures Builds(sets + [AssignNow(col)], args, now, patch[col := Num(now)])
  {
    AppendSetNow(sets, args, col, now);
    assert patch[col := Num(now)].Keys == patch.Keys + {col};
    assert |patch[col := Num(now)]| == |patch[col := Num(now)].Keys|;
  }

  /** The key comes last and disturbs no earlier placeholder. */
  lemma AddKey(sets: seq<Assign>, args: seq<Value>, now: int, patch: Patch, key: Value)
    requires Builds(sets, args, now, patch)
    ensures Builds(sets, args + [key], now, patch)
  {
    ChangesOnMoreArgs(sets, args, [key], now);
  }

  /** Running an update on a table: rows whose key column equals the key argument take the patch, others stay. */
  function RunUpdate(u: Update, table: seq<Row>, now: int): seq<Row>
    requires SetsBound(u.sets, u.args) && 1 <= u.keyN <= |u.args|
  {
    seq(|table|, i requires 0 <= i < |table| =>
      if Same(Cell(table[i], u.keyCol), u.args[u.keyN - 1]) then table[i] + Changes(u.sets, u.args, now) else table[i])
  }

  // ------------------------------------------------------------------ posts

  datatype PostPatch = PostPatch(
    slug: Option<string>, title: Option<string>, description: Option<string>, content: Option<string>,
    tags: Option<seq<string>>, coverImage: Option<string>, isPublished: Option<bool>, publishedAt: Option<int>)

  /** strings.Fields counts maximal runs of non-space characters. */
  function WordCount(s: string): nat {
    if s == [] then 0
    else (if !IsSpace(s[0]) && (|s| == 1 || IsSpace(s[1])) then 1 else 0) + WordCount(s[1..])
  }

  /** Words on either side of a space count separately, ... */
  lemma {:induction false} WordsAdd(before: string, space: char, after: string)
    requires IsSpace(space)
    ensures WordCount(before + [space] + after) == WordCount(before) + WordCount(after)
    decreases |before|
  {
    var all := before + [space] + after;
    if before == [] {
      assert all[1..] == after;
    } else {
      assert all[1..] == before[1..] + [space] + after;
      WordsAdd(before[1..], space, after);
    }
  }

  /** ... and text without a space in it is one word. */
  lemma {:induction false} OneWord(word: string)
    requires word != [] && forall i | 0 <= i < |word| :: !IsSpace(word[i])
    ensures WordCount(word) == 1
    decreases |word|
  {
    if |word| > 1 {
      OneWord(word[1..]);
    }
  }

  /** The fewest whole minutes, and one at least, that hold so many words at 120 a minute. */
  predicate Minutes(words: nat, mins: nat) {
    mins >= 1 && words <= 120 * mins && (mins > 1 ==> 120 * (mins - 1) < words)
  }

  /** The text says how many. */
  ghost predicate ReadsAs(content: string, time: Value) {
    exists mins: nat :: Minutes(WordCount(content), mins) && time == Str(Decimal(mins) + " min read")
  }

  lemma ReadingTimeReads(content: string)
    ensures ReadsAs(content, Str(ReadingTime(content)))
  {
    var mins := (WordCount(content) + 119) / 120;
    var shown := if mins < 1 then 1 else mins;
    assert Minutes(WordCount(content), shown);
  }

  function ReadingTime(content: string): string {
    var mins := (WordCount(content) + 119) / 120;
    Decimal(if mins < 1 then 1 else mins) + " min read"
  }

  function TagsOf(t: Option<seq<string>>): Option<Value> { if t.Some? then Some(List(t.value)) else None }
  function BoolOf(b: Option<bool>): Option<Value> { if b.Some? then Some(Bool(b.value)) else None }
  function NumOf(n: Option<int>): Option<Value> { if n.Some? then Some(Num(n.value)) else None }
  function ReadingOf(content: Option<string>): Option<Value> {
    if content.Some? then Some(Str(ReadingTime(content.value))) else None
  }

  /** The columns a post patch supplies; the reading time follows the content. */
  function PostFields(p: PostPatch): Patch {
    With(With(MediaFields(p), IsPublished, BoolOf(p.isPublished)), PublishedAt, NumOf(p.publishedAt))
  }

  function MediaFields(p: PostPatch): Patch {
    With(With(TextFields(p), Tags, TagsOf(p.tags)), CoverImage, StrOf(p.coverImage))
  }

  function TextFields(p: PostPatch): Patch {
    var f1 := With(map[], Slug, StrOf(p.slug));
    var f2 := With(f1, Title, StrOf(p.title));
    var f3 := With(f2, Description, StrOf(p.description));
    var f4 := With(f3, Content, StrOf(p.content));
    With(f4, Column.ReadingTime, ReadingOf(p.content))
  }

  /** Each supplied text in its own column, a new reading time with a new content. */
  ghost predicate TextChanged(p: PostPatch, before: Row, after: Row) {
    && Cell(after, Slug) == (if p.slug.Some? then Str(p.slug.value) else Cell(before, Slug))
    && Cell(after, Title) == (if p.title.Some? then Str(p.title.value) else Cell(before, Title))
    && Cell(after, Description) == (if p.description.Some? then Str(p.description.value) else Cell(before, Description))
    && Cell(after, Content) == (if p.content.Some? then Str(p.content.value) else Cell(before, Content))
    && (if p.content.Some? then ReadsAs(p.content.value, Cell(after, Column.ReadingTime))
        else Cell(after, Column.ReadingTime) == Cell(before, Column.ReadingTime))
  }

  /** A post row before and after an update: each supplied field in its own column, the rest as it was. */
  ghost predicate PostChanged(p: PostPatch, now: int, before: Row, after: Row) {
    && TextChanged(p, before, after)
    && Cell(after, Tags) == (if p.tags.Some? then List(p.tags.value) else Cell(before, Tags))
    && Cell(after, CoverImage) == (if p.coverImage.Some? then Str(p.coverImage.value) else Cell(before, CoverImage))
    && Cell(after, IsPublished) ==
         (if p.isPublished.Some? then Bool(p.isPublished.value) else Cell(before, IsPublished))
    && Cell(after, PublishedAt) ==
         (if p.publishedAt.Some? then Num(p.publishedAt.value) else Cell(before, PublishedAt))
    && Cell(after, UpdatedAt) == Num(now)
    && forall col | col !in POST_COLUMNS :: Cell(after, col) == Cell(before, col)
  }

  /** A row of the table before and after: the post of that slug changes and no other. */
  ghost predicate PostUpdated(slug: string, p: PostPatch, now: int, before: Row, after: Row) {
    if Cell(before, Slug) == Str(slug) then PostChanged(p, now, before, after) else after == before
  }

  const TEXT_COLUMNS: set<Column> := {Slug, Title, Description, Content, Column.ReadingTime}

  const POST_COLUMNS: set<Column> := TEXT_COLUMNS + {Tags, CoverImage, IsPublished, PublishedAt, UpdatedAt}

  /** What the patch has for a column, if anything. */
  function Field(patch: Patch, col: Column): Option<Value> {
    if col in patch then Some(patch[col]) else None
  }

  lemma WithField(patch: Patch, added: Column, v: Option<Value>, col: Column)
    ensures Field(With(patch, added, v), col) == if col == added && v.Some? then v else Field(patch, col)
  {}

  lemma TextFieldsCarry(p: PostPatch)
    ensures var f := TextFields(p);
            && Field(f, Slug) == StrOf(p.slug) && Field(f, Title) == StrOf(p.title)
            && Field(f, Description) == StrOf(p.description) && Field(f, Content) == StrOf(p.content)
            && Field(f, Column.ReadingTime) == ReadingOf(p.content)
            && f.Keys <= TEXT_COLUMNS
  {}

  lemma PostFieldsCarry(p: PostPatch, col: Column)
    ensures Field(PostFields(p), col) ==
            match col
            case Tags => TagsOf(p.tags)
            case CoverImage => StrOf(p.coverImage)
            case IsPublished => BoolOf(p.isPublished)
            case PublishedAt => NumOf(p.publishedAt)
            case _ => Field(TextFields(p), col)
  {
    TextFieldsCarry(p);
    var tagged := With(TextFields(p), Tags, TagsOf(p.tags));
    WithField(TextFields(p), Tags, TagsOf(p.tags), col);
    WithField(tagged, CoverImage, StrOf(p.coverImage), col);
    WithField(MediaFields(p), IsPublished, BoolOf(p.isPublished), col);
    WithField(With(MediaFields(p), IsPublished, BoolOf(p.isPublished)), PublishedAt, NumOf(p.publishedAt), col);
  }

  lemma OneFieldChanges(p: PostPatch, now: int, before: Row, col: Column)
    requires col != UpdatedAt
    ensures Cell(before + PostFields(p)[UpdatedAt := Num(now)], col) ==
            var v := match col
                     case Tags => TagsOf(p.tags)
                     case CoverImage => StrOf(p.coverImage)
                     case IsPublished => BoolOf(p.isPublished)
                     case PublishedAt => NumOf(p.publishedAt)
                     case _ => Field(TextFields(p), col);
            if v.Some? then v.value else Cell(before, col)
  {
    CellAfter(p, now, before, col);
    PostFieldsCarry(p, col);
  }

  lemma CellAfter(p: PostPatch, now: int, before: Row, col: Column)
    requires col != UpdatedAt
    ensures Cell(before + PostFields(p)[UpdatedAt := Num(now)], col) ==
            var v := Field(PostFields(p), col);
            if v.Some? then v.value else Cell(before, col)
  {}

  lemma TextFieldsChange(p: PostPatch, now: int, before: Row)
    ensures TextChanged(p, before, before + PostFields(p)[UpdatedAt := Num(now)])
  {
    TextFieldsCarry(p);
    forall col | col in TEXT_COLUMNS
      ensures Cell(before + PostFields(p)[UpdatedAt := Num(now)], col) ==
              var v := Field(TextFields(p), col);
              if v.Some? then v.value else Cell(before, col)
    {
      OneFieldChanges(p, now, before, col);
    }
    if p.content.Some? {
      ReadingTimeReads(p.content.value);
    }
  }

  lemma OtherFieldStays(p: PostPatch, now: int, before: Row, col: Column)
    requires col !in POST_COLUMNS
    ensures Cell(before + PostFields(p)[UpdatedAt := Num(now)], col) == Cell(before, col)
  {
    OneFieldChanges(p, now, before, col);
    TextFieldsCarry(p);
  }

  lemma PostFieldsChange(p: PostPatch, now: int, before: Row)
    ensures PostChanged(p, now, before, before + PostFields(p)[UpdatedAt := Num(now)])
  {
    TextFieldsChange(p, now, before);
    OneFieldChanges(p, now, before, Tags);
    OneFieldChanges(p, now, before, CoverImage);
    OneFieldChanges(p, now, before, IsPublished);
    OneFieldChanges(p, now, before, PublishedAt);
    forall col | col !in POST_COLUMNS
      ensures Cell(before + PostFields(p)[UpdatedAt := Num(now)], col) == Cell(before, col)
    {
      OtherFieldStays(p, now, before, col);
    }
  }

  lemma NothingSupplied(p: PostPatch)
    ensures PostFields(p) == map[] <==> p == PostPatch(None, None, None, None, None, None, None, None)
  {
    if PostFields(p) == map[] {
      TextFieldsCarry(p);
      PostFieldsCarry(p, Slug);
      PostFieldsCarry(p, Title);
      PostFieldsCarry(p, Description);
      PostFieldsCarry(p, Content);
      PostFieldsCarry(p, Tags);
      PostFieldsCarry(p, CoverImage);
      PostFieldsCarry(p, IsPublished);
      PostFieldsCarry(p, PublishedAt);
    }
  }

  /** The first half of the SET list: the text columns and the reading time that follows the content. */
  method PostTextSets(req: PostPatch, ghost now: int) returns (sets: seq<Assign>, args: seq<Value>, argIdx: int)
    ensures Builds(sets, args, now, TextFields(req)) && argIdx == |args| + 1
  {
    sets, args, argIdx := [], [], 1;
    NoSets(now);
    ghost var patch: Patch := map[];

    if req.slug.Some? {
      sets, args, argIdx := Supply(sets, args, argIdx, Slug, Str(req.slug.value), now, patch);
    }
    patch := With(patch, Slug, StrOf(req.slug));
    assert Builds(sets, args, now, patch);

    if req.title.Some? {
      sets, args, argIdx := Supply(sets, args, argIdx, Title, Str(req.title.value), now, patch);
    }
    patch := With(patch, Title, StrOf(req.title));
    assert Builds(sets, args, now, patch);

    if req.description.Some? {
      sets, args, argIdx := Supply(sets, args, argIdx, Description, Str(req.description.value), now, patch);
    }
    patch := With(patch, Description, StrOf(req.description));
    assert Builds(sets, args, now, patch);

    if req.content.Some? {
      sets, args, argIdx := Supply(sets, args, argIdx, Content, Str(req.content.value), now, patch);
      sets, args, argIdx := Supply(sets, args, argIdx, Column.ReadingTime, Str(ReadingTime(req.content.value)), now,
                                   patch[Content := Str(req.content.value)]);
    }
  }

  /** With the tags and the cover image. */
  method PostMediaSets(req: PostPatch, ghost now: int) returns (sets: seq<Assign>, args: seq<Value>, argIdx: int)
    ensures Builds(sets, args, now, MediaFields(req)) && argIdx == |args| + 1
  {
    sets, args, argIdx := PostTextSets(req, now);
    ghost var patch := TextFields(req);

    if req.tags.Some? {
      sets, args, argIdx := Supply(sets, args, argIdx, Tags, List(req.tags.value), now, patch);
    }
    patch := With(patch, Tags, TagsOf(req.tags));
    assert Builds(sets, args, now, patch);

    if req.coverImage.Some? {
      sets, args, argIdx := Supply(sets, args, argIdx, CoverImage, Str(req.coverImage.value), now, patch);
    }
  }

  /** The SET list without the time stamp. */
  method PostSets(req: PostPatch, ghost now: int) returns (sets: seq<Assign>, args: seq<Value>, argIdx: int)
    ensures Builds(sets, args, now, PostFields(req)) && argIdx == |args| + 1
  {
    sets, args, argIdx := PostMediaSets(req, now);
    ghost var patch := MediaFields(req);

    if req.isPublished.Some? {
      sets, args, argIdx := Supply(sets, args, argIdx, IsPublished, Bool(req.isPublished.value), now, patch);
    }
    patch := With(patch, IsPublished, BoolOf(req.isPublished));
    assert Builds(sets, args, now, patch);

    if req.publishedAt.Some? {
      sets, args, argIdx := Supply(sets, args, argIdx, PublishedAt, Num(req.publishedAt.value), now, patch);
    }
    patch := With(patch, PublishedAt, NumOf(req.publishedAt));
    assert Builds(sets, args, now, patch);
  }

  /**
    None when nothing was supplied (the post is then only read back); otherwise an
    update of the row with this slug by the supplied fields and the time stamp.
  */
  method UpdatePost(slug: string, req: PostPatch, ghost now: int) returns (u: Option<Update>)
    ensures u.None? <==> req == PostPatch(None, None, None, None, None, None, None, None)
    ensures u.Some? ==> SetsBound(u.value.sets, u.value.args) && 1 <= u.value.keyN <= |u.value.args|
    ensures u.Some? ==> forall table: seq<Row>, i | 0 <= i < |table| ::
              PostUpdated(slug, req, now, table[i], RunUpdate(u.value, table, now)[i])
    ensures u.Some? ==>
              && Builds(u.value.sets, u.value.args, now, PostFields(req)[UpdatedAt := Num(now)])
              && u.value.keyCol == Slug
              && 1 <= u.value.keyN <= |u.value.args| && u.value.args[u.value.keyN - 1] == Str(slug)
  {
    var sets, args, argIdx := PostSets(req, now);
    NothingSupplied(req);
    StampSet(sets, args, now, PostFields(req), UpdatedAt);
    sets := sets + [AssignNow(UpdatedAt)];
    if |sets| == 1 {
      return None;
    }
    AddKey(sets, args, now, PostFields(req)[UpdatedAt := Num(now)], Str(slug));
    u := Some(Update(sets, Slug, argIdx, args + [Str(slug)]));
    forall table: seq<Row>, i | 0 <= i < |table|
      ensures PostUpdated(slug, req, now, table[i], RunUpdate(u.value, table, now)[i])
    {
      PostFieldsChange(req, now, table[i]);
    }
  }

  /**
    Run on a table, the update gives the rows with the old slug the supplied
    columns and the stamp, and leaves every other column and row as it was.
  */
  lemma PatchApplied(u: Update, now: int, patch: Patch, key: Value, table: seq<Row>, i: nat, col: Column)
    requires Builds(u.sets, u.args, now, patch)
    requires 1 <= u.keyN <= |u.args| && u.args[u.keyN - 1] == key
    requires i < |table|
    ensures |RunUpdate(u, table, now)| == |table|
    ensures Cell(RunUpdate(u, table, now)[i], col) ==
            if Same(Cell(table[i], u.keyCol), key) && col in patch then patch[col] else Cell(table[i], col)
  {}

  // ------------------------------------------------------------------ users

  datatype UserPatch = UserPatch(
    email: Option<string>, username: Option<string>, fullName: Option<string>, isActive: Option<bool>)

  datatype UserError = UserNotFound | UserAlreadyExists | CannotDeactivateSuperadmin

  /** A text field counts as supplied when something is left of it after trimming. */
  function Supplied(s: Option<string>): Option<string> {
    if s.Some? && TrimSpace(s.value) != "" then Some(TrimSpace(s.value)) else None
  }

  function Lowered(s: Option<string>): Option<string> {
    if s.Some? then Some(ToLower(s.value)) else None
  }

  function UserFields(p: UserPatch): Patch {
    var f1 := With(map[], Email, StrOf(Lowered(Supplied(p.email))));
    var f2 := With(f1, Username, StrOf(Lowered(Supplied(p.username))));
    var f3 := With(f2, FullName, StrOf(Supplied(p.fullName)));
    With(f3, IsActive, BoolOf(p.isActive))
  }

  /** A user row before and after: addresses and names trimmed and in lower case, full names trimmed. */
  ghost predicate UserChanged(p: UserPatch, now: int, before: Row, after: Row) {
    && Cell(after, Email) ==
         (if p.email.Some? && TrimSpace(p.email.value) != "" then Str(ToLower(TrimSpace(p.email.value)))
          else Cell(before, Email))
    && Cell(after, Username) ==
         (if p.username.Some? && TrimSpace(p.username.value) != "" then Str(ToLower(TrimSpace(p.username.value)))
          else Cell(before, Username))
    && Cell(after, FullName) ==
         (if p.fullName.Some? && TrimSpace(p.fullName.value) != "" then Str(TrimSpace(p.fullName.value))
          else Cell(before, FullName))
    && Cell(after, IsActive) == (if p.isActive.Some? then Bool(p.isActive.value) else Cell(before, IsActive))
    && Cell(after, UpdatedAt) == Num(now)
    && forall col | col !in {Email, Username, FullName, IsActive, UpdatedAt} :: Cell(after, col) == Cell(before, col)
  }

  /** A row of the table before and after: the user of that id changes and no other. */
  ghost predicate UserUpdated(id: string, p: UserPatch, now: int, before: Row, after: Row) {
    if Cell(before, Id) == Str(id) then UserChanged(p, now, before, after) else after == before
  }

  predicate Blank(s: Option<string>) {
    s.None? || TrimSpace(s.value) == ""
  }

  lemma UserFieldsCarry(p: UserPatch)
    ensures var f := UserFields(p);
            && Field(f, Email) == StrOf(Lowered(Supplied(p.email)))
            && Field(f, Username) == StrOf(Lowered(Supplied(p.username)))
            && Field(f, FullName) == StrOf(Supplied(p.fullName))
            && Field(f, IsActive) == BoolOf(p.isActive)
            && f.Keys <= {Email, Username, FullName, IsActive}
  {}

  lemma NothingSuppliedToUser(p: UserPatch)
    ensures UserFields(p) == map[] <==>
            Blank(p.email) && Blank(p.username) && Blank(p.fullName) && p.isActive.None?
  {
    UserFieldsCarry(p);
  }

  lemma UserFieldsChange(p: UserPatch, now: int, before: Row)
    ensures UserChanged(p, now, before, before + UserFields(p)[UpdatedAt := Num(now)])
  {
    UserFieldsCarry(p);
  }

  /** What is left of the text after trimming, in lower case, is new to this user and not free. */
  predicate TakenByAnother(text: Option<string>, own: string, taken: set<string>) {
    && text.Some? && TrimSpace(text.value) != ""
    && ToLower(TrimSpace(text.value)) != ToLower(own) && ToLower(TrimSpace(text.value)) in taken
  }

  method UserSets(input: UserPatch, ghost now: int) returns (sets: seq<Assign>, args: seq<Value>, argIdx: int)
    ensures Builds(sets, args, now, UserFields(input)) && argIdx == |args| + 1
  {
    var email, username, fullName := Supplied(input.email), Supplied(input.username), Supplied(input.fullName);
    sets, args, argIdx := [], [], 1;
    NoSets(now);
    ghost var patch: Patch := map[];

    if email.Some? {
      sets, args, argIdx := Supply(sets, args, argIdx, Email, Str(ToLower(email.value)), now, patch);
    }
    patch := With(patch, Email, StrOf(Lowered(email)));
    assert Builds(sets, args, now, patch);

    if username.Some? {
      sets, args, argIdx := Supply(sets, args, argIdx, Username, Str(ToLower(username.value)), now, patch);
    }
    patch := With(patch, Username, StrOf(Lowered(username)));
    assert Builds(sets, args, now, patch);

    if fullName.Some? {
      sets, args, argIdx := Supply(sets, args, argIdx, FullName, Str(fullName.value), now, patch);
    }
    patch := With(patch, FullName, StrOf(fullName));
    assert Builds(sets, args, now, patch);

    if input.isActive.Some? {
      sets, args, argIdx := Supply(sets, args, argIdx, IsActive, Bool(input.isActive.value), now, patch);
    }
    patch := With(patch, IsActive, BoolOf(input.isActive));
    assert Builds(sets, args, now, patch);
  }

  /** The checks before the statement is built: uniqueness first, then the superadmin guard. */
  method CheckUser(input: UserPatch, emailNow: string, usernameNow: string,
                   emailsTaken: set<string>, usernamesTaken: set<string>, isSuperadmin: bool)
    returns (r: Result<(), UserError>)
    ensures r == Err(UserAlreadyExists) <==>
              || TakenByAnother(input.email, emailNow, emailsTaken)
              || TakenByAnother(input.username, usernameNow, usernamesTaken)
    ensures r == Err(CannotDeactivateSuperadmin) <==>
              && input.isActive == Some(false) && isSuperadmin
              && !TakenByAnother(input.email, emailNow, emailsTaken)
              && !TakenByAnother(input.username, usernameNow, usernamesTaken)
    ensures r != Err(UserNotFound)
  {
    var email, username := Supplied(input.email), Supplied(input.username);
    if email.Some? {
      var newEmail := ToLower(email.value);
      if newEmail != ToLower(emailNow) && newEmail in emailsTaken {
        return Err(UserAlreadyExists);
      }
    }
    if username.Some? {
      var newUsername := ToLower(username.value);
      if newUsername != ToLower(usernameNow) && newUsername in usernamesTaken {
        return Err(UserAlreadyExists);
      }
    }
    if input.isActive.Some? && !input.isActive.value && isSuperadmin {
      return Err(CannotDeactivateSuperadmin);
    }
    return Ok(());
  }

  /**
    UpdateUser on the user id: found says whether there is such a user, the sets hold
    the lowered addresses and names of the others. Ok(None) returns the user as it is.
  */
  method UpdateUser(id: string, found: bool, input: UserPatch, emailNow: string, usernameNow: string,
                    emailsTaken: set<string>, usernamesTaken: set<string>, isSuperadmin: bool, now: int)
    returns (r: Result<Option<Update>, UserError>)
    ensures r == Err(UserNotFound) <==> !found
    ensures r == Err(UserAlreadyExists) <==>
              && found
              && (|| TakenByAnother(input.email, emailNow, emailsTaken)
                  || TakenByAnother(input.username, usernameNow, usernamesTaken))
    ensures r == Err(CannotDeactivateSuperadmin) <==>
              && found && input.isActive == Some(false) && isSuperadmin
              && !TakenByAnother(input.email, emailNow, emailsTaken)
              && !TakenByAnother(input.username, usernameNow, usernamesTaken)
    ensures r.Ok? ==>
              (r.value.None? <==>
                 Blank(input.email) && Blank(input.username) && Blank(input.fullName) && input.isActive.None?)
    ensures r.Ok? && r.value.Some? ==>
              SetsBound(r.value.value.sets, r.value.value.args) && 1 <= r.value.value.keyN <= |r.value.value.args|
    ensures r.Ok? && r.value.Some? ==> forall table: seq<Row>, i | 0 <= i < |table| ::
              UserUpdated(id, input, now, table[i], RunUpdate(r.value.value, table, now)[i])
    ensures r.Ok? && r.value.Some? ==>
              var u := r.value.value;
              && Builds(u.sets, u.args, now, UserFields(input)[UpdatedAt := Num(now)])
              && u.keyCol == Id && 1 <= u.keyN <= |u.args| && u.args[u.keyN - 1] == Str(id)
  {
    if !found {
      return Err(UserNotFound);
    }
    var check := CheckUser(input, emailNow, usernameNow, emailsTaken, usernamesTaken, isSuperadmin);
    if check.Err? {
      return Err(check.error);
    }
    var u := UserUpdate(id, input, now);
    return Ok(u);
  }

  /** The statement for the user of that id, if anything was supplied. */
  method UserUpdate(id: string, input: UserPatch, now: int) returns (u: Option<Update>)
    ensures u.None? <==> Blank(input.email) && Blank(input.username) && Blank(input.fullName) && input.isActive.None?
    ensures u.Some? ==>
              && Builds(u.value.sets, u.value.args, now, UserFields(input)[UpdatedAt := Num(now)])
              && u.value.keyCol == Id && 1 <= u.value.keyN <= |u.value.args|
              && u.value.args[u.value.keyN - 1] == Str(id)
    ensures u.Some? ==> forall table: seq<Row>, i | 0 <= i < |table| ::
              UserUpdated(id, input, now, table[i], RunUpdate(u.value, table, now)[i])
  {
    var sets, args, argIdx := UserSets(input, now);
    NothingSuppliedToUser(input);
    if sets == [] {
      return None;
    }
    AddSet(sets, args, now, UserFields(input), UpdatedAt, Num(now));
    sets, args, argIdx := sets + [Assign(UpdatedAt, argIdx)], args + [Num(now)], argIdx + 1;
    AddKey(sets, args, now, UserFields(input)[UpdatedAt := Num(now)], Str(id));
    u := Some(Update(sets, Id, argIdx, args + [Str(id)]));
    forall table: seq<Row>, i | 0 <= i < |table|
      ensures UserUpdated(id, input, now, table[i], RunUpdate(u.value, table, now)[i])
    {
      UserFieldsChange(input, now, table[i]);
    }
  }
}

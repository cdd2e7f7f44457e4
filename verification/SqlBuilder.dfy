/**
  The part of SQL the dynamic queries are made of: conditions and assignments that
  name their arguments by position ($1, $2, ...), and what they mean on a row.
*/
module SqlBuilder {
  import opened Text
  import opened LikePattern

  datatype Value =
    | Null
    | Str(s: string)
    | Num(n: int)
    | Bool(b: bool)
    | List(items: seq<string>)

  /** The columns the queries name, over all tables. */
  datatype Column =
    | Slug | Title | Description | Content | Tags | CoverImage | ReadingTime | IsPublished | PublishedAt | UpdatedAt
    | Level | Message | Component | TraceId
    | ExpiresAt | BurnAfterRead | IsPublic | Syntax | UserId
    | PostSlug | Username | FullName | Email | Provider | LinkedProviders | IsActive
    | Id | Filename | StorageBackend
  type Row = map<Column, Value>

  function Cell(row: Row, col: Column): Value {
    if col in row then row[col] else Null
  }

  // ------------------------------------------------------------ conditions

  /** A condition; n is the number written after the dollar sign. */
  datatype Cond =
    | Always                                  // 1=1
    | IsTrue(col: Column)
    | IsFalse(col: Column)
    | Unexpired(col: Column)                  // col IS NULL OR col > NOW()
    | Equals(col: Column, n: int)
    | EqualsOr(col: Column, other: string, n: int)   // COALESCE(col, 'other') = $n
    | AnyOf(n: int, col: Column)              // $n = ANY(col)
    | ILike(col: Column, n: int)
    | LowerLike(col: Column, n: int)          // LOWER(col) LIKE $n
    | Or(left: Cond, right: Cond)

  function Placeholders(c: Cond): set<int> {
    match c
    case Equals(_, n) => {n}
    case EqualsOr(_, _, n) => {n}
    case AnyOf(n, _) => {n}
    case ILike(_, n) => {n}
    case LowerLike(_, n) => {n}
    case Or(l, r) => Placeholders(l) + Placeholders(r)
    case _ => {}
  }

  predicate Bound(c: Cond, args: seq<Value>) {
    match c
    case Equals(_, n) => 1 <= n <= |args|
    case EqualsOr(_, _, n) => 1 <= n <= |args|
    case AnyOf(n, _) => 1 <= n <= |args|
    case ILike(_, n) => 1 <= n <= |args|
    case LowerLike(_, n) => 1 <= n <= |args|
    case Or(l, r) => Bound(l, args) && Bound(r, args)
    case _ => true
  }

  predicate InRange(numbers: set<int>, most: nat) {
    forall n | n in numbers :: 1 <= n <= most
  }

  /** A condition can be evaluated exactly if all its placeholders are in 1..len(args). */
  lemma {:induction false} BoundMeansInRange(c: Cond, args: seq<Value>)
    ensures Bound(c, args) <==> InRange(Placeholders(c), |args|)
  {
    match c
    case Or(l, r) =>
      BoundMeansInRange(l, args);
      BoundMeansInRange(r, args);
      BothInRange(Placeholders(l), Placeholders(r), |args|);
    case Equals(_, n) => OneInRange(n, |args|);
    case EqualsOr(_, _, n) => OneInRange(n, |args|);
    case AnyOf(n, _) => OneInRange(n, |args|);
    case ILike(_, n) => OneInRange(n, |args|);
    case LowerLike(_, n) => OneInRange(n, |args|);
    case _ =>
  }

  lemma BothInRange(a: set<int>, b: set<int>, most: nat)
    ensures InRange(a + b, most) <==> InRange(a, most) && InRange(b, most)
  {
    assert forall n | n in a || n in b :: n in a + b;
  }

  lemma OneInRange(n: int, most: nat)
    ensures InRange({n}, most) <==> 1 <= n <= most
  {
    assert n in {n};
  }

  predicate Holds(c: Cond, row: Row, args: seq<Value>, now: int)
    requires Bound(c, args)
  {
    match c
    case Always => true
    case IsTrue(col) => Cell(row, col) == Bool(true)
    case IsFalse(col) => Cell(row, col) == Bool(false)
    case Unexpired(col) => Cell(row, col) == Null || (Cell(row, col).Num? && Cell(row, col).n > now)
    case Equals(col, n) => Same(Cell(row, col), args[n - 1])
    case EqualsOr(col, other, n) => Same(if Cell(row, col) == Null then Str(other) else Cell(row, col), args[n - 1])
    case AnyOf(n, col) => Member(args[n - 1], Cell(row, col))
    case ILike(col, n) => Matches(args[n - 1], Cell(row, col))
    case LowerLike(col, n) => MatchesLower(args[n - 1], Cell(row, col))
    case Or(l, r) => Holds(l, row, args, now) || Holds(r, row, args, now)
  }

  /** SQL equality: NULL equals nothing. */
  predicate Same(v: Value, w: Value) { v == w && v != Null }

  predicate Member(v: Value, list: Value) { v.Str? && list.List? && v.s in list.items }

  predicate Matches(pattern: Value, v: Value) { pattern.Str? && v.Str? && ILikeMatch(pattern.s, v.s) }

  predicate MatchesLower(pattern: Value, v: Value) { pattern.Str? && v.Str? && LikeMatch(pattern.s, ToLower(v.s)) }

  /** Every placeholder has an argument, and every argument a placeholder. */
  ghost predicate Numbered(where: seq<Cond>, args: seq<Value>) {
    && (forall c | c in where :: Bound(c, args))
    && (forall n | 1 <= n <= |args| :: Used(where, n))
  }

  ghost predicate Used(where: seq<Cond>, n: int) {
    exists c | c in where :: n in Placeholders(c)
  }

  /** The WHERE clause: its conditions joined by AND. */
  ghost predicate Selects(where: seq<Cond>, row: Row, args: seq<Value>, now: int)
    requires Numbered(where, args)
  {
    forall c | c in where :: Holds(c, row, args, now)
  }

  lemma {:induction false} HoldsOnMoreArgs(c: Cond, row: Row, args: seq<Value>, more: seq<Value>, now: int)
    requires Bound(c, args)
    ensures Bound(c, args + more)
    ensures Holds(c, row, args + more, now) <==> Holds(c, row, args, now)
  {
    if c.Or? {
      HoldsOnMoreArgs(c.left, row, args, more, now);
      HoldsOnMoreArgs(c.right, row, args, more, now);
    }
  }

  /** Appending a condition on the next placeholder, with its argument, adds that condition and nothing else. */
  lemma Append(where: seq<Cond>, args: seq<Value>, c: Cond, v: Value)
    requires Numbered(where, args) && Placeholders(c) == {|args| + 1}
    ensures Numbered(where + [c], args + [v])
    ensures forall row: Row, now :: Selects(where + [c], row, args + [v], now) <==>
                                    Selects(where, row, args, now) && Holds(c, row, args + [v], now)
  {
    var where', args' := where + [c], args + [v];
    forall d | d in where' ensures Bound(d, args') {
      assert d == c || d in where;
      if d in where {
        HoldsOnMoreArgs(d, map[], args, [v], 0);
      } else {
        BoundMeansInRange(c, args');
      }
    }
    forall n | 1 <= n <= |args'| ensures Used(where', n) {
      if n == |args'| {
        assert c in where' && n in Placeholders(c);
      } else {
        assert Used(where, n);
        var d :| d in where && n in Placeholders(d);
        assert d in where';
      }
    }
    forall row: Row, now
      ensures Selects(where', row, args', now) <==> Selects(where, row, args, now) && Holds(c, row, args', now)
    {
      forall d | d in where ensures Holds(d, row, args', now) <==> Holds(d, row, args, now) {
        HoldsOnMoreArgs(d, row, args, [v], now);
      }
      assert c in where';
      assert forall d | d in where' :: d in where || d == c;
      assert forall d | d in where :: d in where';
    }
  }

  /** Appending a condition without a placeholder. */
  lemma AppendBare(where: seq<Cond>, args: seq<Value>, c: Cond)
    requires Numbered(where, args) && Placeholders(c) == {}
    ensures Numbered(where + [c], args)
    ensures forall row: Row, now :: Selects(where + [c], row, args, now) <==>
                                    Selects(where, row, args, now) && Holds(c, row, args, now)
  {
    var where' := where + [c];
    BoundMeansInRange(c, args);
    assert forall d | d in where' :: d in where || d == c;
    assert forall d | d in where :: d in where';
    assert c in where';
    forall n | 1 <= n <= |args| ensures Used(where', n) {
      assert Used(where, n);
      var d :| d in where && n in Placeholders(d);
      assert d in where';
    }
  }

  type Filter = (Row, int) -> bool

  /** The clause list, with its arguments, selects at time now exactly the rows the filter wants. */
  ghost predicate Denotes(where: seq<Cond>, args: seq<Value>, f: Filter) {
    && Numbered(where, args)
    && forall row: Row, now :: Selects(where, row, args, now) <==> f(row, now)
  }

  lemma NoClauses(f: Filter)
    requires forall row: Row, now :: f(row, now)
    ensures Denotes([], [], f) && Denotes([Always], [], f)
  {
    AppendBare([], [], Always);
    assert [] + [Always] == [Always];
  }

  /** An optional clause with its argument, appended or left out, narrows the filter f to g. */
  lemma Optional(on: bool, where: seq<Cond>, args: seq<Value>, c: Cond, v: Value, f: Filter, g: Filter)
    requires Denotes(where, args, f) && Placeholders(c) == {|args| + 1} && Bound(c, args + [v])
    requires forall row: Row, now :: g(row, now) <==> f(row, now) && (on ==> Holds(c, row, args + [v], now))
    ensures Denotes(if on then where + [c] else where, if on then args + [v] else args, g)
  {
    Append(where, args, c, v);
  }

  /** An optional clause without an argument. */
  lemma OptionalBare(on: bool, where: seq<Cond>, args: seq<Value>, c: Cond, f: Filter, g: Filter)
    requires Denotes(where, args, f) && Placeholders(c) == {} && Bound(c, args)
    requires forall row: Row, now :: g(row, now) <==> f(row, now) && (on ==> Holds(c, row, args, now))
    ensures Denotes(if on then where + [c] else where, args, g)
  {
    AppendBare(where, args, c);
  }

  /** (a LIKE $n OR b LIKE $n) and (a LIKE $n OR b LIKE $n OR c LIKE $n): one placeholder, written out per column. */
  function Either(a: Cond, b: Cond): Cond { Or(a, b) }

  function AnyOfThree(a: Cond, b: Cond, c: Cond): Cond { Or(Or(a, b), c) }

  lemma EitherHolds(a: Cond, b: Cond, args: seq<Value>)
    requires Bound(a, args) && Bound(b, args)
    ensures Bound(Either(a, b), args) && Placeholders(Either(a, b)) == Placeholders(a) + Placeholders(b)
    ensures forall row: Row, now :: Holds(Either(a, b), row, args, now) <==>
                                    Holds(a, row, args, now) || Holds(b, row, args, now)
  {}

  lemma AnyOfThreeHolds(a: Cond, b: Cond, c: Cond, args: seq<Value>)
    requires Bound(a, args) && Bound(b, args) && Bound(c, args)
    ensures Bound(AnyOfThree(a, b, c), args)
    ensures Placeholders(AnyOfThree(a, b, c)) == Placeholders(a) + Placeholders(b) + Placeholders(c)
    ensures forall row: Row, now :: Holds(AnyOfThree(a, b, c), row, args, now) <==>
              Holds(a, row, args, now) || Holds(b, row, args, now) || Holds(c, row, args, now)
  {
    EitherHolds(a, b, args);
    EitherHolds(Or(a, b), c, args);
    forall row: Row, now
      ensures Holds(AnyOfThree(a, b, c), row, args, now) <==>
              Holds(a, row, args, now) || Holds(b, row, args, now) || Holds(c, row, args, now)
    {
      assert Holds(Either(Or(a, b), c), row, args, now) <==>
               Holds(Either(a, b), row, args, now) || Holds(c, row, args, now);
    }
  }

  /** A count query and a page query that share one WHERE clause. */
  datatype ListQuery = ListQuery(
    where: seq<Cond>, countArgs: seq<Value>, dataArgs: seq<Value>, limitN: int, offsetN: int)

  /** LIMIT and OFFSET are numbered after the filters, whose numbers mean the same in both queries. */
  ghost predicate Pages(q: ListQuery, limit: int, offset: int) {
    && Numbered(q.where, q.countArgs)
    && q.dataArgs == q.countArgs + [Num(limit), Num(offset)]
    && 1 <= q.limitN <= |q.dataArgs| && q.dataArgs[q.limitN - 1] == Num(limit)
    && 1 <= q.offsetN <= |q.dataArgs| && q.dataArgs[q.offsetN - 1] == Num(offset)
    && forall c | c in q.where :: q.limitN !in Placeholders(c) && q.offsetN !in Placeholders(c)
  }

  /** The rows both queries range over. */
  ghost predicate Finds(q: ListQuery, row: Row, now: int)
    requires Numbered(q.where, q.countArgs)
  {
    Selects(q.where, row, q.countArgs, now)
  }

  /** The page query, evaluated with its own argument list, ranges over the rows that were counted. */
  lemma PageMatchesCount(q: ListQuery, limit: int, offset: int, row: Row, now: int)
    requires Pages(q, limit, offset)
    ensures forall c | c in q.where :: Bound(c, q.dataArgs)
    ensures Finds(q, row, now) <==> forall c | c in q.where :: Holds(c, row, q.dataArgs, now)
  {
    forall c | c in q.where
      ensures Bound(c, q.dataArgs) && (Holds(c, row, q.dataArgs, now) <==> Holds(c, row, q.countArgs, now))
    {
      HoldsOnMoreArgs(c, row, q.countArgs, [Num(limit), Num(offset)], now);
    }
  }

  /** The finished query: its filters denote f, and LIMIT and OFFSET come next. */
  lemma Finish(where: seq<Cond>, args: seq<Value>, n: int, limit: int, offset: int, f: Filter)
    requires Denotes(where, args, f) && n == |args| + 1
    ensures var q := ListQuery(where, args, args + [Num(limit), Num(offset)], n, n + 1);
            Pages(q, limit, offset) && forall row: Row, now :: Finds(q, row, now) <==> f(row, now)
  {
    PagesBy(where, args, n, limit, offset);
  }

  lemma PagesBy(where: seq<Cond>, args: seq<Value>, n: int, limit: int, offset: int)
    requires Numbered(where, args) && n == |args| + 1
    ensures Pages(ListQuery(where, args, args + [Num(limit), Num(offset)], n, n + 1), limit, offset)
  {
    forall c | c in where ensures n !in Placeholders(c) && n + 1 !in Placeholders(c) {
      BoundMeansInRange(c, args);
    }
  }

  // ----------------------------------------------------------- assignments

  /** One entry of a SET list. */
  datatype Assign = Assign(col: Column, n: int) | AssignNow(col: Column)

  datatype Update = Update(sets: seq<Assign>, keyCol: Column, keyN: int, args: seq<Value>)

  predicate SetsBound(sets: seq<Assign>, args: seq<Value>) {
    forall i | 0 <= i < |sets| :: sets[i].Assign? ==> 1 <= sets[i].n <= |args|
  }

  function NewValue(a: Assign, args: seq<Value>, now: int): Value
    requires a.Assign? ==> 1 <= a.n <= |args|
  {
    match a case Assign(_, n) => args[n - 1] case AssignNow(_) => Num(now)
  }

  /** PostgreSQL refuses a SET list that assigns a column twice. */
  predicate DistinctColumns(sets: seq<Assign>) {
    forall i, j | 0 <= i < j < |sets| :: sets[i].col != sets[j].col
  }

  function Changes(sets: seq<Assign>, args: seq<Value>, now: int): map<Column, Value>
    requires SetsBound(sets, args)
  {
    if sets == [] then map[]
    else
      var last := |sets| - 1;
      Changes(sets[..last], args, now)[sets[last].col := NewValue(sets[last], args, now)]
  }

  lemma {:induction false} ChangesOnMoreArgs(sets: seq<Assign>, args: seq<Value>, more: seq<Value>, now: int)
    requires SetsBound(sets, args)
    ensures SetsBound(sets, args + more)
    ensures Changes(sets, args + more, now) == Changes(sets, args, now)
  {
    if sets != [] {
      ChangesOnMoreArgs(sets[..|sets| - 1], args, more, now);
    }
  }

  /** Appending an assignment from the next placeholder changes that column and no other. */
  lemma AppendSet(sets: seq<Assign>, args: seq<Value>, col: Column, v: Value, now: int)
    requires SetsBound(sets, args)
    ensures var sets', args' := sets + [Assign(col, |args| + 1)], args + [v];
            SetsBound(sets', args') && Changes(sets', args', now) == Changes(sets, args, now)[col := v]
  {
    var sets', args' := sets + [Assign(col, |args| + 1)], args + [v];
    assert SetsBound(sets', args');
    assert sets'[..|sets'| - 1] == sets;
    ChangesOnMoreArgs(sets, args, [v], now);
  }

  lemma AppendSetNow(sets: seq<Assign>, args: seq<Value>, col: Column, now: int)
    requires SetsBound(sets, args)
    ensures SetsBound(sets + [AssignNow(col)], args)
    ensures Changes(sets + [AssignNow(col)], args, now) == Changes(sets, args, now)[col := Num(now)]
  {
    assert (sets + [AssignNow(col)])[..|sets|] == sets;
  }
}

/**
 * The select statement `createQuery` builds from a search filter, as a
 * structured value, and what running it against the table returns.
 *
 * The grouping by key that the statement ends with is given an explicit
 * meaning here: each key is represented by its newest row (largest
 * creation date; of rows with equal dates, the later one in table order).
 * The groups are then ordered by creation date, newest first, keeping
 * table order between equal dates, and cut to the limit (a negative limit
 * means no limit). LIKE is taken as exact comparison.
 */
module Query {
  import opened Wrappers
  import opened PhpValues
  import opened Table
  import opened Entity
  import opened SearchFilter

  /** One condition of the WHERE clause. */
  datatype Cond = IntEq(col: Column, n: int) | Like(col: Column, pattern: string) | IsNull(col: Column)

  datatype Projection = AllColumns | Columns(names: seq<string>)

  /** SELECT projection FROM table WHERE where[0] AND ... GROUP BY groupBy
    * ORDER BY orderByDesc DESC [LIMIT limit] */
  datatype Query = Query(projection: Projection, where: seq<Cond>, groupBy: Column, orderByDesc: Column, limit: Option<int>)

  /** The id condition when the filter has an id, else the key condition
    * when the key is truthy, else nothing. */
  function IdOrKeyCond(f: FilterView): seq<Cond>
  {
    if f.id.Some? then [IntEq(IdCol, f.id.value)]
    else if Truthy(f.key) then [Like(KeyCol, f.key.value)]
    else []
  }

  function OwnerCond(f: FilterView): seq<Cond>
  {
    if Truthy(f.userId) then [Like(UserIdCol, f.userId.value)] else []
  }

  function ParentCond(f: FilterView): seq<Cond>
  {
    if TruthyInt(f.parentId) then [IntEq(ParentIdCol, f.parentId.value)] else []
  }

  /** The one scope condition: the scope when it is truthy, else none. */
  function ScopeCond(f: FilterView): Cond
  {
    if Truthy(f.scope) then Like(ScopeCol, f.scope.value) else IsNull(ScopeCol)
  }

  /** The type condition, which compares the type with the KEY column. */
  function TypeCond(f: FilterView): seq<Cond>
  {
    var t := TypeOf(f.typeName, f.value);
    if Truthy(t) then [Like(KeyCol, t.value)] else []
  }

  /** The WHERE clause, in the order `createQuery` writes it. */
  function Conds(f: FilterView): seq<Cond>
  {
    IdOrKeyCond(f) + OwnerCond(f) + ParentCond(f) + [ScopeCond(f)] + TypeCond(f)
  }

  /** `createQuery`. */
  function CreateQuery(f: FilterView): (q: Query)
    // the listed fields, or every column when there are none
    ensures q.projection.AllColumns? <==> f.fields.None? || f.fields.value == []
    ensures q.projection.Columns? ==> q.projection.names == f.fields.value
    // an id, else a truthy key, opens the WHERE clause
    ensures f.id.Some? ==> |q.where| > 0 && q.where[0] == IntEq(IdCol, f.id.value)
    ensures f.id.None? && Truthy(f.key) ==> |q.where| > 0 && q.where[0] == Like(KeyCol, f.key.value)
    // the fixed tail: grouped by key, newest first, LIMIT exactly when the filter has a limit
    ensures q.groupBy == KeyCol && q.orderByDesc == CreationDateCol
    ensures q.limit.Some? <==> f.fetchLimit.Some?
    ensures q.limit.Some? ==> q.limit.value == f.fetchLimit.value
  {
    Query(if f.fields.Some? && f.fields.value != [] then Columns(f.fields.value) else AllColumns,
          Conds(f), KeyCol, CreationDateCol, f.fetchLimit)
  }

  /** The WHERE clause is made of its five parts and nothing else. */
  lemma CondsMembers(f: FilterView, c: Cond)
    ensures c in Conds(f) <==>
              c in IdOrKeyCond(f) || c in OwnerCond(f) || c in ParentCond(f) || c == ScopeCond(f) || c in TypeCond(f)
  {
  }

  /** Exactly one scope condition: LIKE the scope when it is truthy, IS NULL
    * otherwise; no other condition tests the scope column. */
  lemma QueryScope(f: FilterView)
    ensures var s := if Truthy(f.scope) then Like(ScopeCol, f.scope.value) else IsNull(ScopeCol);
            && s in CreateQuery(f).where
            && forall c :: c in CreateQuery(f).where && c.col == ScopeCol ==> c == s
  {
    CondsMembers(f, ScopeCond(f));
    forall c | c in CreateQuery(f).where && c.col == ScopeCol
      ensures c == ScopeCond(f)
    {
      CondsMembers(f, c);
    }
  }

  /** An id is compared exactly, and only the id condition tests the id
    * column. */
  lemma QueryId(f: FilterView)
    ensures f.id.Some? ==> IntEq(IdCol, f.id.value) in CreateQuery(f).where
    ensures forall c :: c in CreateQuery(f).where && c.col == IdCol ==> f.id.Some? && c == IntEq(IdCol, f.id.value)
  {
    if f.id.Some? {
      CondsMembers(f, IntEq(IdCol, f.id.value));
    }
    forall c | c in CreateQuery(f).where && c.col == IdCol
      ensures f.id.Some? && c == IntEq(IdCol, f.id.value)
    {
      CondsMembers(f, c);
    }
  }

  /** The key column is compared with the key only when there is no id and
    * the key is truthy, and with the type (not the type column) when the
    * filter's type is truthy; nothing tests the type column. */
  lemma QueryKeyAndType(f: FilterView)
    ensures f.id.None? && Truthy(f.key) ==> Like(KeyCol, f.key.value) in CreateQuery(f).where
    ensures var t := TypeOf(f.typeName, f.value);
            Truthy(t) ==> Like(KeyCol, t.value) in CreateQuery(f).where
    ensures forall c :: c in CreateQuery(f).where && c.col == KeyCol ==>
              || (f.id.None? && Truthy(f.key) && c == Like(KeyCol, f.key.value))
              || (Truthy(TypeOf(f.typeName, f.value)) && c == Like(KeyCol, TypeOf(f.typeName, f.value).value))
    ensures forall c :: c in CreateQuery(f).where ==> c.col != TypeCol
  {
    if f.id.None? && Truthy(f.key) {
      CondsMembers(f, Like(KeyCol, f.key.value));
    }
    var t := TypeOf(f.typeName, f.value);
    if Truthy(t) {
      CondsMembers(f, Like(KeyCol, t.value));
    }
    forall c | c in CreateQuery(f).where
      ensures c.col == KeyCol ==>
                || (f.id.None? && Truthy(f.key) && c == Like(KeyCol, f.key.value))
                || (Truthy(t) && c == Like(KeyCol, t.value))
      ensures c.col != TypeCol
    {
      CondsMembers(f, c);
    }
  }

  /** The owner condition appears exactly when the user id is truthy, and is
    * the only condition on that column. */
  lemma QueryOwner(f: FilterView)
    ensures Truthy(f.userId) ==> Like(UserIdCol, f.userId.value) in CreateQuery(f).where
    ensures forall c :: c in CreateQuery(f).where && c.col == UserIdCol ==>
              Truthy(f.userId) && c == Like(UserIdCol, f.userId.value)
  {
    if Truthy(f.userId) {
      CondsMembers(f, Like(UserIdCol, f.userId.value));
    }
    forall c | c in CreateQuery(f).where && c.col == UserIdCol
      ensures Truthy(f.userId) && c == Like(UserIdCol, f.userId.value)
    {
      CondsMembers(f, c);
    }
  }

  /** The parent condition appears exactly when the parent id is truthy, and
    * is the only condition on that column. */
  lemma QueryParent(f: FilterView)
    ensures TruthyInt(f.parentId) ==> IntEq(ParentIdCol, f.parentId.value) in CreateQuery(f).where
    ensures forall c :: c in CreateQuery(f).where && c.col == ParentIdCol ==>
              TruthyInt(f.parentId) && c == IntEq(ParentIdCol, f.parentId.value)
  {
    if TruthyInt(f.parentId) {
      CondsMembers(f, IntEq(ParentIdCol, f.parentId.value));
    }
    forall c | c in CreateQuery(f).where && c.col == ParentIdCol
      ensures TruthyInt(f.parentId) && c == IntEq(ParentIdCol, f.parentId.value)
    {
      CondsMembers(f, c);
    }
  }

  /** A column of a row as the database answers it. */
  datatype Cell = NullCell | IntCell(i: int) | TextCell(s: string) | ValueCell(v: Value)

  function IntCellOf(o: Option<int>): Cell
  {
    if o.Some? then IntCell(o.value) else NullCell
  }

  function TextCellOf(o: Option<string>): Cell
  {
    if o.Some? then TextCell(o.value) else NullCell
  }

  function CellOf(r: Row, col: Column): Cell
  {
    match col
    case IdCol => IntCell(r.id)
    case ParentIdCol => IntCellOf(r.fields.parentId)
    case KeyCol => TextCellOf(r.fields.key)
    case TypeCol => TextCellOf(r.fields.typeName)
    case ValueCol => if r.fields.value == Null then NullCell else ValueCell(r.fields.value)
    case ScopeCol => TextCellOf(r.fields.scope)
    case CreationDateCol => IntCell(r.fields.creationDate)
    case UserIdCol => TextCellOf(r.fields.userId)
  }

  predicate Holds(c: Cond, r: Row)
  {
    match c
    case IntEq(col, n) => CellOf(r, col) == IntCell(n)
    case Like(col, p) => CellOf(r, col) == TextCell(p)
    case IsNull(col) => CellOf(r, col) == NullCell
  }

  predicate Matches(conds: seq<Cond>, r: Row)
  {
    forall i :: 0 <= i < |conds| ==> Holds(conds[i], r)
  }

  /** The rows that satisfy every condition, in table order. */
  function Where(rows: seq<Row>, conds: seq<Cond>): (r: seq<Row>)
    ensures |r| <= |rows|
  {
    if rows == [] then []
    else Where(rows[..|rows| - 1], conds) + (if Matches(conds, rows[|rows| - 1]) then [rows[|rows| - 1]] else [])
  }

  /** Row `i` represents its key: every other row with that key is older, or
    * as old and earlier. */
  predicate IsNewest(rs: seq<Row>, i: int)
    requires 0 <= i < |rs|
  {
    forall j :: 0 <= j < |rs| && j != i && rs[j].fields.key == rs[i].fields.key ==>
      || rs[j].fields.creationDate < rs[i].fields.creationDate
      || (rs[j].fields.creationDate == rs[i].fields.creationDate && j < i)
  }

  /** The representatives among the first `n` rows, in table order. */
  function NewestUpTo(rs: seq<Row>, n: nat): seq<Row>
    requires n <= |rs|
  {
    if n == 0 then [] else NewestUpTo(rs, n - 1) + (if IsNewest(rs, n - 1) then [rs[n - 1]] else [])
  }

  /** GROUP BY key: one row per key. */
  function Newest(rs: seq<Row>): seq<Row>
  {
    NewestUpTo(rs, |rs|)
  }

  function Date(r: Row): int
  {
    r.fields.creationDate
  }

  /** Inserts `x` after every row at least as new (the stable step). */
  function InsertDesc(s: seq<Row>, x: Row): seq<Row>
  {
    if s == [] then [x]
    else if Date(s[|s| - 1]) >= Date(x) then s + [x]
    else InsertDesc(s[..|s| - 1], x) + [s[|s| - 1]]
  }

  /** ORDER BY creationDate DESC, stable. */
  function SortDesc(rs: seq<Row>): seq<Row>
  {
    if rs == [] then [] else InsertDesc(SortDesc(rs[..|rs| - 1]), rs[|rs| - 1])
  }

  /** LIMIT: a non-negative limit keeps that many rows, a negative one all. */
  function Limit(rs: seq<Row>, limit: Option<int>): seq<Row>
  {
    if limit.Some? && 0 <= limit.value < |rs| then rs[..limit.value] else rs
  }

  /** LIMIT keeps a prefix: at most `limit` rows when it is not negative,
    * every row otherwise. */
  lemma LimitPrefix(rs: seq<Row>, limit: Option<int>)
    ensures var r := Limit(rs, limit);
            && (limit.Some? && 0 <= limit.value ==> |r| == if limit.value < |rs| then limit.value else |rs|)
            && (limit.None? || limit.value < 0 ==> r == rs)
            && |r| <= |rs| && r == rs[..|r|]
  {
  }

  /** The rows the statement returns, in order. */
  function Select(rows: seq<Row>, q: Query): seq<Row>
  {
    Limit(SortDesc(Newest(Where(rows, q.where))), q.limit)
  }

  // ---------------------------------------------------------------------
  // Properties of WHERE

  lemma {:induction false} WhereSound(rows: seq<Row>, conds: seq<Cond>)
    ensures forall r :: r in Where(rows, conds) <==> r in rows && Matches(conds, r)
  {
    if rows != [] {
      WhereSound(rows[..|rows| - 1], conds);
      assert rows == rows[..|rows| - 1] + [rows[|rows| - 1]];
    }
  }

  lemma {:induction false} WhereAppend(a: seq<Row>, b: seq<Row>, conds: seq<Cond>)
    ensures Where(a + b, conds) == Where(a, conds) + Where(b, conds)
    decreases |b|
  {
    if b == [] {
      assert a + b == a;
    } else {
      var b' := b[..|b| - 1];
      assert (a + b)[..|a + b| - 1] == a + b';
      WhereAppend(a, b', conds);
    }
  }

  lemma WhereSingle(r: Row, conds: seq<Cond>)
    ensures Where([r], conds) == if Matches(conds, r) then [r] else []
  {
    assert [r][..0] == [];
  }

  lemma {:induction false} WhereNone(rows: seq<Row>, conds: seq<Cond>)
    requires forall i :: 0 <= i < |rows| ==> !Matches(conds, rows[i])
    ensures Where(rows, conds) == []
  {
    if rows != [] {
      WhereNone(rows[..|rows| - 1], conds);
    }
  }

  lemma {:induction false} WhereAll(rows: seq<Row>, conds: seq<Cond>)
    requires forall i :: 0 <= i < |rows| ==> Matches(conds, rows[i])
    ensures Where(rows, conds) == rows
  {
    if rows != [] {
      WhereAll(rows[..|rows| - 1], conds);
      assert rows == rows[..|rows| - 1] + [rows[|rows| - 1]];
    }
  }

  // ---------------------------------------------------------------------
  // Properties of the grouping

  /** Each representative among the first `n` rows is a newest row of
    * its key at some index below `n`. */
  lemma {:induction false} NewestSource(rs: seq<Row>, n: nat, a: int) returns (i: int)
    requires n <= |rs| && 0 <= a < |NewestUpTo(rs, n)|
    ensures 0 <= i < n && IsNewest(rs, i) && rs[i] == NewestUpTo(rs, n)[a]
  {
    var p := NewestUpTo(rs, n - 1);
    if a < |p| {
      i := NewestSource(rs, n - 1, a);
    } else {
      i := n - 1;
    }
  }

  /** Every newest row below `n` is among the representatives. */
  lemma {:induction false} NewestIncludes(rs: seq<Row>, n: nat, i: int)
    requires 0 <= i < n <= |rs| && IsNewest(rs, i)
    ensures rs[i] in NewestUpTo(rs, n)
  {
    if i < n - 1 {
      NewestIncludes(rs, n - 1, i);
    }
  }

  /** The representatives are exactly the newest rows of their keys. */
  lemma NewestUpToSound(rs: seq<Row>, n: nat)
    requires n <= |rs|
    ensures forall r :: r in NewestUpTo(rs, n) <==> exists i :: 0 <= i < n && IsNewest(rs, i) && rs[i] == r
  {
    forall r | r in NewestUpTo(rs, n)
      ensures exists i :: 0 <= i < n && IsNewest(rs, i) && rs[i] == r
    {
      var a :| 0 <= a < |NewestUpTo(rs, n)| && NewestUpTo(rs, n)[a] == r;
      var i := NewestSource(rs, n, a);
    }
    forall i | 0 <= i < n && IsNewest(rs, i)
      ensures rs[i] in NewestUpTo(rs, n)
    {
      NewestIncludes(rs, n, i);
    }
  }

  /** Every key of the input has a representative, and representatives of
    * the same key are the same row. */
  lemma NewestUnique(rs: seq<Row>, i: int, j: int)
    requires 0 <= i < |rs| && 0 <= j < |rs| && IsNewest(rs, i) && IsNewest(rs, j)
    requires rs[i].fields.key == rs[j].fields.key
    ensures i == j
  {
  }

  /** The last of the newest rows with the key of row `j` represents it. */
  lemma BestIndex(rs: seq<Row>, j: int)
    requires 0 <= j < |rs|
    ensures exists i :: 0 <= i < |rs| && IsNewest(rs, i) && rs[i].fields.key == rs[j].fields.key
  {
    var k := rs[j].fields.key;
    var m := MaxDate(rs, k, j);
    var j' :| 0 <= j' < |rs| && rs[j'].fields.key == k && Date(rs[j']) == m;
    var i := LastWithDate(rs, k, m, j');
    assert IsNewest(rs, i);
  }

  /** The largest date among the rows with key `k`, given one such row `j`. */
  ghost function MaxDate(rs: seq<Row>, k: Option<string>, j: int): (m: int)
    requires 0 <= j < |rs| && rs[j].fields.key == k
    ensures exists i :: 0 <= i < |rs| && rs[i].fields.key == k && Date(rs[i]) == m
    ensures forall i :: 0 <= i < |rs| && rs[i].fields.key == k ==> Date(rs[i]) <= m
    decreases |rs|
  {
    var last := rs[|rs| - 1];
    if |rs| == 1 then Date(last)
    else if j == |rs| - 1 then
      if exists i :: 0 <= i < |rs| - 1 && rs[i].fields.key == k then
        var i :| 0 <= i < |rs| - 1 && rs[i].fields.key == k;
        var m' := MaxDate(rs[..|rs| - 1], k, i);
        if Date(last) > m' then Date(last) else m'
      else Date(last)
    else
      var m' := MaxDate(rs[..|rs| - 1], k, j);
      if last.fields.key == k && Date(last) > m' then Date(last) else m'
  }

  /** The last row with key `k` and date `m`, given one such row `j`. */
  ghost function LastWithDate(rs: seq<Row>, k: Option<string>, m: int, j: int): (i: int)
    requires 0 <= j < |rs| && rs[j].fields.key == k && Date(rs[j]) == m
    ensures j <= i < |rs| && rs[i].fields.key == k && Date(rs[i]) == m
    ensures forall l :: i < l < |rs| ==> rs[l].fields.key != k || Date(rs[l]) != m
    decreases |rs| - j
  {
    if exists l :: j < l < |rs| && rs[l].fields.key == k && Date(rs[l]) == m then
      var l :| j < l < |rs| && rs[l].fields.key == k && Date(rs[l]) == m;
      LastWithDate(rs, k, m, l)
    else j
  }

  /** GROUP BY key: every row of the result comes from the input and no row
    * of the input with the same key is newer. */
  lemma NewestLatest(rs: seq<Row>)
    ensures forall r :: r in Newest(rs) ==> r in rs
    ensures forall r, j :: r in Newest(rs) && 0 <= j < |rs| && rs[j].fields.key == r.fields.key ==> Date(rs[j]) <= Date(r)
  {
    NewestUpToSound(rs, |rs|);
    forall r, j | r in Newest(rs) && 0 <= j < |rs| && rs[j].fields.key == r.fields.key
      ensures Date(rs[j]) <= Date(r)
    {
      var i :| 0 <= i < |rs| && IsNewest(rs, i) && rs[i] == r;
      if j != i {
        assert rs[j].fields.key == rs[i].fields.key;
      }
    }
  }

  /** GROUP BY key: every key of the input is represented in the result. */
  lemma NewestCovers(rs: seq<Row>, j: int)
    requires 0 <= j < |rs|
    ensures exists r :: r in Newest(rs) && r.fields.key == rs[j].fields.key
  {
    BestIndex(rs, j);
    NewestUpToSound(rs, |rs|);
    var i :| 0 <= i < |rs| && IsNewest(rs, i) && rs[i].fields.key == rs[j].fields.key;
    assert rs[i] in Newest(rs);
  }

  /** GROUP BY key: no two representatives share a key. */
  lemma {:induction false} NewestDistinct(rs: seq<Row>, n: nat)
    requires n <= |rs|
    ensures forall a, b :: 0 <= a < b < |NewestUpTo(rs, n)| ==> NewestUpTo(rs, n)[a].fields.key != NewestUpTo(rs, n)[b].fields.key
  {
    if n > 0 {
      NewestDistinct(rs, n - 1);
      var p := NewestUpTo(rs, n - 1);
      if IsNewest(rs, n - 1) {
        forall a | 0 <= a < |p|
          ensures p[a].fields.key != rs[n - 1].fields.key
        {
          var i := NewestSource(rs, n - 1, a);
          if p[a].fields.key == rs[n - 1].fields.key {
            NewestUnique(rs, i, n - 1);
          }
        }
      }
    }
  }

  /** Rows that all have distinct keys are each their own group. */
  lemma {:induction false} NewestDistinctKeys(rs: seq<Row>)
    requires forall i, j :: 0 <= i < j < |rs| ==> rs[i].fields.key != rs[j].fields.key
    ensures Newest(rs) == rs
  {
    forall n | 0 <= n <= |rs|
      ensures NewestUpTo(rs, n) == rs[..n]
    {
      NewestPrefixAll(rs, n);
    }
    assert rs[..|rs|] == rs;
  }

  lemma {:induction false} NewestPrefixAll(rs: seq<Row>, n: nat)
    requires n <= |rs| && forall i :: 0 <= i < |rs| ==> IsNewest(rs, i)
    ensures NewestUpTo(rs, n) == rs[..n]
  {
    if n > 0 {
      NewestPrefixAll(rs, n - 1);
      assert rs[..n] == rs[..n - 1] + [rs[n - 1]];
    }
  }

  /** Rows of one key whose last row is the newest collapse to that row. */
  lemma {:induction false} NewestOneKey(rs: seq<Row>)
    requires |rs| > 0
    requires forall i :: 0 <= i < |rs| ==> rs[i].fields.key == rs[0].fields.key && Date(rs[i]) <= Date(rs[|rs| - 1])
    ensures Newest(rs) == [rs[|rs| - 1]]
  {
    var n := |rs|;
    NewestNonePrefix(rs, n - 1);
    assert IsNewest(rs, n - 1);
    assert NewestUpTo(rs, n) == NewestUpTo(rs, n - 1) + [rs[n - 1]];
  }

  lemma {:induction false} NewestNonePrefix(rs: seq<Row>, n: nat)
    requires n < |rs|
    requires forall i :: 0 <= i < |rs| ==> rs[i].fields.key == rs[0].fields.key && Date(rs[i]) <= Date(rs[|rs| - 1])
    ensures NewestUpTo(rs, n) == []
  {
    if n > 0 {
      NewestNonePrefix(rs, n - 1);
      assert !IsNewest(rs, n - 1) by {
        var j := |rs| - 1;
        assert rs[j].fields.key == rs[n - 1].fields.key;
      }
    }
  }

  // ---------------------------------------------------------------------
  // Properties of the ordering

  predicate SortedDesc(rs: seq<Row>)
  {
    forall i, j :: 0 <= i < j < |rs| ==> Date(rs[i]) >= Date(rs[j])
  }

  /** Inserting neither loses nor adds a row. */
  lemma {:induction false} InsertDescPerm(s: seq<Row>, x: Row)
    ensures multiset(InsertDesc(s, x)) == multiset(s) + multiset{x}
  {
    if s != [] && Date(s[|s| - 1]) < Date(x) {
      var s' := s[..|s| - 1];
      InsertDescPerm(s', x);
      assert s == s' + [s[|s| - 1]];
    }
  }

  lemma {:induction false} InsertDescMembers(s: seq<Row>, x: Row)
    ensures forall y :: y in InsertDesc(s, x) ==> y in s || y == x
  {
    if s != [] && Date(s[|s| - 1]) < Date(x) {
      var s' := s[..|s| - 1];
      InsertDescMembers(s', x);
      assert forall y :: y in s' ==> y in s;
    }
  }

  /** Appending a row no newer than every row keeps the order. */
  lemma SortedSnoc(t: seq<Row>, y: Row)
    requires SortedDesc(t) && forall i :: 0 <= i < |t| ==> Date(t[i]) >= Date(y)
    ensures SortedDesc(t + [y])
  {
  }

  /** Inserting into rows newest first keeps them newest first. */
  lemma {:induction false} InsertDescSorted(s: seq<Row>, x: Row)
    requires SortedDesc(s)
    ensures SortedDesc(InsertDesc(s, x))
  {
    if s != [] && Date(s[|s| - 1]) < Date(x) {
      var s', last := s[..|s| - 1], s[|s| - 1];
      InsertDescSorted(s', x);
      InsertDescMembers(s', x);
      var t := InsertDesc(s', x);
      forall i | 0 <= i < |t|
        ensures Date(t[i]) >= Date(last)
      {
        assert t[i] in t;
        if t[i] != x {
          var k :| 0 <= k < |s'| && s'[k] == t[i];
        }
      }
      SortedSnoc(t, last);
    }
  }

  /** ORDER BY creationDate DESC sorts and neither loses nor adds a row. */
  lemma SortDescSorts(rs: seq<Row>)
    ensures SortedDesc(SortDesc(rs))
    ensures multiset(SortDesc(rs)) == multiset(rs)
  {
    SortDescSorted(rs);
    SortDescPerm(rs);
  }

  lemma {:induction false} SortDescSorted(rs: seq<Row>)
    ensures SortedDesc(SortDesc(rs))
  {
    if rs != [] {
      SortDescSorted(rs[..|rs| - 1]);
      InsertDescSorted(SortDesc(rs[..|rs| - 1]), rs[|rs| - 1]);
    }
  }

  lemma {:induction false} SortDescPerm(rs: seq<Row>)
    ensures multiset(SortDesc(rs)) == multiset(rs)
  {
    if rs != [] {
      var p, x := rs[..|rs| - 1], rs[|rs| - 1];
      MultisetSnoc(rs);
      SortDescPerm(p);
      InsertDescPerm(SortDesc(p), x);
    }
  }

  lemma MultisetSnoc(rs: seq<Row>)
    requires rs != []
    ensures multiset(rs) == multiset(rs[..|rs| - 1]) + multiset{rs[|rs| - 1]}
  {
    assert rs == rs[..|rs| - 1] + [rs[|rs| - 1]];
  }

  /** The ordering is stable: rows that all share one date keep their order. */
  lemma {:induction false} SortDescSameDate(rs: seq<Row>, d: int)
    requires forall i :: 0 <= i < |rs| ==> Date(rs[i]) == d
    ensures SortDesc(rs) == rs
  {
    if rs != [] {
      var p := rs[..|rs| - 1];
      SortDescSameDate(p, d);
      assert rs == p + [rs[|rs| - 1]];
    }
  }

  // ---------------------------------------------------------------------
  // Properties of the whole statement

  /** Every returned row is a row of the table that satisfies every
    * condition, and no two returned rows share a key. */
  lemma SelectSound(rows: seq<Row>, q: Query)
    ensures forall r :: r in Select(rows, q) ==> r in rows && Matches(q.where, r)
    ensures forall a, b :: 0 <= a < b < |Select(rows, q)| ==> Select(rows, q)[a].fields.key != Select(rows, q)[b].fields.key
  {
    var w := Where(rows, q.where);
    var s := SortDesc(Newest(w));
    LimitPrefix(s, q.limit);
    forall r | r in Select(rows, q)
      ensures r in rows && Matches(q.where, r)
    {
      SelectFrom(w, s, Select(rows, q), r);
      WhereSound(rows, q.where);
    }
    NewestDistinct(w, |w|);
    forall a, b | 0 <= a < b < |Select(rows, q)|
      ensures Select(rows, q)[a].fields.key != Select(rows, q)[b].fields.key
    {
      SortDistinctKeys(Newest(w), a, b);
    }
  }

  /** A row of a prefix of the sorted representatives is a row of `w`. */
  lemma SelectFrom(w: seq<Row>, s: seq<Row>, l: seq<Row>, r: Row)
    requires s == SortDesc(Newest(w)) && |l| <= |s| && l == s[..|l|] && r in l
    ensures r in w
  {
    var a :| 0 <= a < |l| && l[a] == r;
    assert s[a] == r;
    SortDescPerm(Newest(w));
    assert r in multiset(Newest(w));
    var b :| 0 <= b < |Newest(w)| && Newest(w)[b] == r;
    var i := NewestSource(w, |w|, b);
  }

  lemma SortDistinctKeys(n: seq<Row>, a: int, b: int)
    requires forall x, y :: 0 <= x < y < |n| ==> n[x].fields.key != n[y].fields.key
    requires 0 <= a < b < |SortDesc(n)|
    ensures SortDesc(n)[a].fields.key != SortDesc(n)[b].fields.key
  {
    SortDescSorts(n);
    var s := SortDesc(n);
    if s[a].fields.key == s[b].fields.key {
      MultisetKeysDistinct(n, s, a, b);
    }
  }

  /** A permutation of rows with distinct keys has distinct keys. */
  lemma MultisetKeysDistinct(n: seq<Row>, s: seq<Row>, a: int, b: int)
    requires forall x, y :: 0 <= x < y < |n| ==> n[x].fields.key != n[y].fields.key
    requires multiset(s) == multiset(n) && 0 <= a < b < |s|
    ensures s[a].fields.key != s[b].fields.key
  {
    if s[a].fields.key == s[b].fields.key {
      assert s[a] in multiset(n);
      assert s[b] in multiset(n);
      var x :| 0 <= x < |n| && n[x] == s[a];
      var y :| 0 <= y < |n| && n[y] == s[b];
      if x == y {
        assert s[a] == s[b];
        assert s == s[..a] + [s[a]] + s[a + 1..b] + [s[b]] + s[b + 1..];
        assert multiset(s)[s[a]] >= 2;
        MultisetOnce(n, x);
      }
    }
  }

  /** In rows with distinct keys, a row occurs once. */
  lemma MultisetOnce(n: seq<Row>, x: int)
    requires forall i, j :: 0 <= i < j < |n| ==> n[i].fields.key != n[j].fields.key
    requires 0 <= x < |n|
    ensures multiset(n)[n[x]] == 1
  {
    assert n == n[..x] + [n[x]] + n[x + 1..];
    assert n[x] !in n[..x];
    assert n[x] !in n[x + 1..];
  }

  /** A filter naming an id returns at most the row with that id. */
  lemma SelectById(rows: seq<Row>, f: FilterView)
    requires UniqueIds(rows) && f.id.Some?
    ensures |Select(rows, CreateQuery(f))| <= 1
    ensures forall r :: r in Select(rows, CreateQuery(f)) ==> r in rows && r.id == f.id.value
  {
    var q := CreateQuery(f);
    SelectSound(rows, q);
    var l := Select(rows, q);
    forall r | r in l ensures r.id == f.id.value {
      assert Holds(q.where[0], r);
    }
    forall a, b | 0 <= a < |l| && 0 <= b < |l|
      ensures l[a] == l[b]
    {
      SameIdSameRow(rows, l[a], l[b]);
    }
    assert |l| > 1 ==> l[0].fields.key != l[1].fields.key;
  }

  lemma SameIdSameRow(rows: seq<Row>, r1: Row, r2: Row)
    requires UniqueIds(rows) && r1 in rows && r2 in rows && r1.id == r2.id
    ensures r1 == r2
  {
    var x :| 0 <= x < |rows| && rows[x] == r1;
    var y :| 0 <= y < |rows| && rows[y] == r2;
    assert x == y;
  }

  /** Every returned row satisfies each condition of the WHERE clause. */
  lemma SelectHolds(rows: seq<Row>, q: Query, c: Cond)
    requires c in q.where
    ensures forall r :: r in Select(rows, q) ==> Holds(c, r)
  {
    SelectSound(rows, q);
    forall r | r in Select(rows, q)
      ensures Holds(c, r)
    {
      var i :| 0 <= i < |q.where| && q.where[i] == c;
    }
  }

  /** Every returned row lies in the filter's scope: the given scope when it
    * is truthy, no scope otherwise. */
  lemma SelectInScope(rows: seq<Row>, f: FilterView)
    ensures forall r :: r in Select(rows, CreateQuery(f)) ==>
              r.fields.scope == if Truthy(f.scope) then f.scope else None
  {
    CondsMembers(f, ScopeCond(f));
    SelectHolds(rows, CreateQuery(f), ScopeCond(f));
  }
}

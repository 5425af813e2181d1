/**
 * What `getData` reads back after `saveData`: the rows `saveData` appends
 * (the value's node, then each entry's rows in pre-order, under ids handed
 * out consecutively), the lookups `get`, `getChildren` and `getById` make
 * over them, and the round trip `getData(k)` after `saveData(k, v)`.
 */
module RoundTrip {
  import opened Wrappers
  import opened PhpValues
  import opened Table
  import opened Entity
  import opened SearchFilter
  import opened Query
  import opened Storage

  // ---------------------------------------------------------------------
  // The rows saveData appends

  /** What the value column holds for `v`: nothing for an array (its
    * entries become rows of their own), the serialized object for a class
    * name `isObject` accepts, `v` itself otherwise. */
  function Stored(v: Value): Value
  {
    if v.Arr? then Null
    else if v.Obj? && (v.className == TYPE_ARRAY || IsObjectType(Some(v.className))) then Encode(v)
    else v
  }

  /** A type name without a backslash, other than "object", is not an
    * object type. */
  lemma PlainName(s: string)
    requires s != TYPE_OBJECT && forall i :: 0 <= i < |s| ==> s[i] != '\\'
    ensures !IsObjectType(Some(s))
  {
  }

  /** The row `saveData` writes for the node of `k => v` (see `WrittenRow`). */
  function HeadRow(k: string, v: Value, scope: Option<string>, pid: Option<int>,
                   userId: Option<string>, now: int, id: int): Row
  {
    Row(id, Fields(pid, Some(k), Some(TypeTag(v)), Stored(v), scope, now, userId))
  }

  /** `HeadRow` is the row `save` writes for the node `saveData` builds. */
  lemma WrittenRow(k: string, v: Value, scope: Option<string>, pid: Option<int>,
                   userId: Option<string>, now: int, id: int)
    ensures HeadRow(k, v, scope, pid, userId, now, id) == Row(id, RowOf(DataNode(k, v, scope, pid, userId), pid, now))
  {
    var d := DataNode(k, v, scope, pid, userId);
    assert TypeOf(d.typeName, d.value) == Some(TypeTag(v));
    if !v.Obj? && !v.Arr? && !v.Null? {
      var t := GetTypeName(v);
      assert t in {"boolean", "integer", "string"};
      PlainName(t);
    }
  }

  /** The number of rows `saveData` writes for `v`. */
  function Size(v: Value): nat
    decreases v, 1
  {
    if v.Arr? then 1 + SizeOf(v.entries) else 1
  }

  function SizeOf(es: seq<Entry>): nat
    decreases es, 0
  {
    if es == [] then 0 else Size(es[0].val) + SizeOf(es[1..])
  }

  /** The rows `saveData(k, v)` appends when the next id is `id`: the node,
    * then, for an array, the rows of each entry under it. */
  function Layout(k: string, v: Value, scope: Option<string>, pid: Option<int>,
                  userId: Option<string>, now: int, id: int): seq<Row>
    decreases v, 1
  {
    [HeadRow(k, v, scope, pid, userId, now, id)]
      + (if v.Arr? then LayoutOf(v.entries, scope, Some(id), userId, now, id + 1) else [])
  }

  function LayoutOf(es: seq<Entry>, scope: Option<string>, pid: Option<int>,
                    userId: Option<string>, now: int, id: int): seq<Row>
    decreases es, 0
  {
    if es == [] then []
    else Layout(es[0].key, es[0].val, scope, pid, userId, now, id)
           + LayoutOf(es[1..], scope, pid, userId, now, id + Size(es[0].val))
  }

  /** The rows of the entries themselves (not of their descendants). */
  function Heads(es: seq<Entry>, scope: Option<string>, pid: Option<int>,
                 userId: Option<string>, now: int, id: int): (hs: seq<Row>)
    ensures |hs| == |es|
    decreases es
  {
    if es == [] then []
    else [HeadRow(es[0].key, es[0].val, scope, pid, userId, now, id)]
           + Heads(es[1..], scope, pid, userId, now, id + Size(es[0].val))
  }

  /** How deep `get` must recurse to reach every entry of `v`. */
  function Depth(v: Value): nat
    decreases v, 1
  {
    if v.Arr? then 1 + DepthOf(v.entries) else 0
  }

  function DepthOf(es: seq<Entry>): nat
    decreases es, 0
  {
    if es == [] then 0
    else var a := Depth(es[0].val); var b := DepthOf(es[1..]); if a < b then b else a
  }

  /** `k` is not the key of any entry, at any depth, of `v`. */
  predicate KeyFree(k: string, v: Value)
    decreases v, 1
  {
    v.Arr? ==> KeyFreeOf(k, v.entries)
  }

  predicate KeyFreeOf(k: string, es: seq<Entry>)
    decreases es, 0
  {
    es != [] ==> es[0].key != k && KeyFree(k, es[0].val) && KeyFreeOf(k, es[1..])
  }

  /** Every object inside `v` has a class name `isObject` accepts (a
    * namespaced one), so `save` serializes it before it reaches the table. */
  predicate ObjectsSerialized(v: Value)
  {
    match v
    case Arr(es) => forall i :: 0 <= i < |es| ==> ObjectsSerialized(es[i].val)
    case Obj(c, _) => IsObjectType(Some(c))
    case _ => true
  }

  /** No row has a parent id in [lo, hi). */
  predicate Avoids(rows: seq<Row>, lo: int, hi: int)
  {
    forall r :: r in rows ==> r.fields.parentId.None? || r.fields.parentId.value < lo || hi <= r.fields.parentId.value
  }

  /** The row lies in what a lookup with this scope and user sees. */
  predicate InView(scope: Option<string>, userId: Option<string>, r: Row)
  {
    && (if Truthy(scope) then r.fields.scope == scope else r.fields.scope.None?)
    && (Truthy(userId) ==> r.fields.userId == userId)
  }

  /** The first step of `saveData`: the node is inserted under the next id. */
  lemma WriteHead(st: Store, k: string, v: Value, scope: Option<string>, pid: Option<int>,
                  userId: Option<string>, now: int)
    requires st.hasTable
    ensures var (h, st1) := SaveTree(st, DataNode(k, v, scope, pid, userId), pid, now);
            && h.id == Some(st.nextId)
            && st1 == Store(true, st.rows + [HeadRow(k, v, scope, pid, userId, now, st.nextId)], st.nextId + 1)
  {
    var d := DataNode(k, v, scope, pid, userId);
    var st1 := Store(true, st.rows + [HeadRow(k, v, scope, pid, userId, now, st.nextId)], st.nextId + 1);
    WrittenRow(k, v, scope, pid, userId, now, st.nextId);
    assert WriteSpec(st, d, RowOf(d, pid, now)) == (Some(st.nextId), st1);
    assert SaveList(st1, d.children, Some(st.nextId), now) == ([], st1);
  }

  /** `saveData` appends the layout of `k => v` under the next ids. */
  lemma {:induction false} SavedRows(st: Store, k: string, v: Value, scope: Option<string>, pid: Option<int>,
                                     userId: Option<string>, now: int)
    requires st.hasTable
    ensures SaveDataSpec(st, k, v, scope, pid, userId, now).1
            == Store(true, st.rows + Layout(k, v, scope, pid, userId, now, st.nextId), st.nextId + Size(v))
    decreases v, 1
  {
    var x := st.nextId;
    var h := HeadRow(k, v, scope, pid, userId, now, x);
    WriteHead(st, k, v, scope, pid, userId, now);
    var st1 := Store(true, st.rows + [h], x + 1);
    if v.Arr? {
      SaveDataArray(st, k, v, scope, pid, userId, now, st1, x);
      SavedEntriesRows(st1, v.entries, scope, Some(x), userId, now);
      var body := LayoutOf(v.entries, scope, Some(x), userId, now, x + 1);
      assert st1.rows + body == st.rows + ([h] + body);
    }
  }

  /** `saveData` on an array, once its node is written. */
  lemma SaveDataArray(st: Store, k: string, v: Value, scope: Option<string>, pid: Option<int>,
                      userId: Option<string>, now: int, st1: Store, x: int)
    requires v.Arr?
    requires SaveTree(st, DataNode(k, v, scope, pid, userId), pid, now) == (SaveTree(st, DataNode(k, v, scope, pid, userId), pid, now).0, st1)
    requires SaveTree(st, DataNode(k, v, scope, pid, userId), pid, now).0.id == Some(x)
    ensures SaveDataSpec(st, k, v, scope, pid, userId, now).1 == SaveEntries(st1, v.entries, scope, Some(x), userId, now).1
  {
  }

  /** `saveData` on the entries: the first, then the rest. */
  lemma SaveEntriesCons(st: Store, es: seq<Entry>, scope: Option<string>, pid: Option<int>,
                        userId: Option<string>, now: int)
    requires es != []
    ensures SaveEntries(st, es, scope, pid, userId, now).1
            == SaveEntries(SaveDataSpec(st, es[0].key, es[0].val, scope, pid, userId, now).1, es[1..], scope, pid, userId, now).1
  {
  }

  lemma LayoutOfCons(es: seq<Entry>, scope: Option<string>, pid: Option<int>, userId: Option<string>, now: int, id: int)
    requires es != []
    ensures LayoutOf(es, scope, pid, userId, now, id)
            == Layout(es[0].key, es[0].val, scope, pid, userId, now, id) + LayoutOf(es[1..], scope, pid, userId, now, id + Size(es[0].val))
  {
  }

  lemma {:induction false} SavedEntriesRows(st: Store, es: seq<Entry>, scope: Option<string>, pid: Option<int>,
                                            userId: Option<string>, now: int)
    requires st.hasTable
    ensures SaveEntries(st, es, scope, pid, userId, now).1
            == Store(true, st.rows + LayoutOf(es, scope, pid, userId, now, st.nextId), st.nextId + SizeOf(es))
    decreases es, 1
  {
    if es == [] {
      assert st.rows + [] == st.rows;
    } else {
      var e := es[0];
      var a := Layout(e.key, e.val, scope, pid, userId, now, st.nextId);
      var t := Store(true, st.rows + a, st.nextId + Size(e.val));
      SavedFirstEntry(st, es, scope, pid, userId, now);
      SavedEntriesRows(t, es[1..], scope, pid, userId, now);
      SavedJoin(st, es, scope, pid, userId, now);
    }
  }

  /** The first entry's rows and then the rest's are the entries' rows. */
  lemma SavedJoin(st: Store, es: seq<Entry>, scope: Option<string>, pid: Option<int>,
                  userId: Option<string>, now: int)
    requires es != []
    ensures var s := Size(es[0].val);
            var t := Store(true, st.rows + Layout(es[0].key, es[0].val, scope, pid, userId, now, st.nextId), st.nextId + s);
            Store(true, t.rows + LayoutOf(es[1..], scope, pid, userId, now, t.nextId), t.nextId + SizeOf(es[1..]))
            == Store(true, st.rows + LayoutOf(es, scope, pid, userId, now, st.nextId), st.nextId + SizeOf(es))
  {
    LayoutOfCons(es, scope, pid, userId, now, st.nextId);
    Assoc(st.rows, Layout(es[0].key, es[0].val, scope, pid, userId, now, st.nextId),
          LayoutOf(es[1..], scope, pid, userId, now, st.nextId + Size(es[0].val)));
  }

  /** Saving the entries saves the first one's rows, then the rest. */
  lemma {:induction false} SavedFirstEntry(st: Store, es: seq<Entry>, scope: Option<string>, pid: Option<int>,
                                           userId: Option<string>, now: int)
    requires st.hasTable && es != []
    ensures SaveEntries(st, es, scope, pid, userId, now).1
            == SaveEntries(Store(true, st.rows + Layout(es[0].key, es[0].val, scope, pid, userId, now, st.nextId),
                                 st.nextId + Size(es[0].val)), es[1..], scope, pid, userId, now).1
    decreases es, 0
  {
    SaveEntriesCons(st, es, scope, pid, userId, now);
    SavedRows(st, es[0].key, es[0].val, scope, pid, userId, now);
  }

  // ---------------------------------------------------------------------
  // The shape of the layout

  /** The layout holds `Size(v)` rows with consecutive ids; its first row has
    * parent `pid`, the others a parent within the layout; every row has the
    * scope, owner and date of the call. */
  lemma {:induction false} LayoutShape(k: string, v: Value, scope: Option<string>, pid: Option<int>,
                                       userId: Option<string>, now: int, id: int)
    ensures var l := Layout(k, v, scope, pid, userId, now, id);
            && |l| == Size(v) && l[0] == HeadRow(k, v, scope, pid, userId, now, id)
            && (forall j :: 0 <= j < |l| ==> l[j].id == id + j)
            && (forall j :: 1 <= j < |l| ==> l[j].fields.parentId.Some? && id <= l[j].fields.parentId.value < id + Size(v))
            && (forall r :: r in l ==> r.fields.scope == scope && r.fields.userId == userId && Date(r) == now)
    decreases v, 1
  {
    if v.Arr? {
      LayoutOfShape(v.entries, scope, Some(id), userId, now, id + 1);
    }
  }

  lemma {:induction false} LayoutOfShape(es: seq<Entry>, scope: Option<string>, pid: Option<int>,
                                         userId: Option<string>, now: int, id: int)
    ensures var l := LayoutOf(es, scope, pid, userId, now, id);
            && |l| == SizeOf(es)
            && (forall j :: 0 <= j < |l| ==> l[j].id == id + j)
            && (forall r :: r in l ==> r.fields.parentId == pid
                                       || (r.fields.parentId.Some? && id <= r.fields.parentId.value < id + SizeOf(es)))
            && (forall r :: r in l ==> r.fields.scope == scope && r.fields.userId == userId && Date(r) == now)
    decreases es, 0
  {
    if es != [] {
      var e := es[0];
      LayoutShape(e.key, e.val, scope, pid, userId, now, id);
      LayoutOfShape(es[1..], scope, pid, userId, now, id + Size(e.val));
      var a := Layout(e.key, e.val, scope, pid, userId, now, id);
      forall r | r in a
        ensures r.fields.parentId == pid || (r.fields.parentId.Some? && id <= r.fields.parentId.value < id + Size(e.val))
      {
        var j :| 0 <= j < |a| && a[j] == r;
      }
    }
  }

  /** The table never receives a raw object: in the rows `saveData` writes
    * for a value whose objects `save` serializes, no value cell is an
    * object. */
  lemma {:induction false} LayoutSerialized(k: string, v: Value, scope: Option<string>, pid: Option<int>,
                                            userId: Option<string>, now: int, id: int)
    requires ObjectsSerialized(v)
    ensures forall r :: r in Layout(k, v, scope, pid, userId, now, id) ==> !r.fields.value.Obj?
    decreases v, 1
  {
    if v.Arr? {
      LayoutOfSerialized(v.entries, scope, Some(id), userId, now, id + 1);
    }
  }

  lemma {:induction false} LayoutOfSerialized(es: seq<Entry>, scope: Option<string>, pid: Option<int>,
                                              userId: Option<string>, now: int, id: int)
    requires forall i :: 0 <= i < |es| ==> ObjectsSerialized(es[i].val)
    ensures forall r :: r in LayoutOf(es, scope, pid, userId, now, id) ==> !r.fields.value.Obj?
    decreases es, 0
  {
    if es != [] {
      LayoutSerialized(es[0].key, es[0].val, scope, pid, userId, now, id);
      LayoutOfSerialized(es[1..], scope, pid, userId, now, id + Size(es[0].val));
    }
  }

  /** No row below the node of `k => v` has key `k` when `k` is free in `v`. */
  lemma {:induction false} LayoutOfKeys(k: string, es: seq<Entry>, scope: Option<string>, pid: Option<int>,
                                        userId: Option<string>, now: int, id: int)
    requires KeyFreeOf(k, es)
    ensures forall r :: r in LayoutOf(es, scope, pid, userId, now, id) ==> r.fields.key != Some(k)
    decreases es
  {
    if es != [] {
      var e := es[0];
      if e.val.Arr? {
        LayoutOfKeys(k, e.val.entries, scope, Some(id), userId, now, id + 1);
      }
      LayoutOfKeys(k, es[1..], scope, pid, userId, now, id + Size(e.val));
    }
  }

  /** The entries' own rows: their keys, ids and date. */
  lemma {:induction false} HeadsShape(es: seq<Entry>, scope: Option<string>, pid: Option<int>,
                                      userId: Option<string>, now: int, id: int)
    ensures var hs := Heads(es, scope, pid, userId, now, id);
            forall i :: 0 <= i < |es| ==> hs[i].fields.key == Some(es[i].key) && Date(hs[i]) == now
    decreases es
  {
    if es != [] {
      var hs := Heads(es, scope, pid, userId, now, id);
      var tl := Heads(es[1..], scope, pid, userId, now, id + Size(es[0].val));
      HeadsShape(es[1..], scope, pid, userId, now, id + Size(es[0].val));
      HeadsCons(es, scope, pid, userId, now, id);
      forall i | 0 <= i < |es| ensures hs[i].fields.key == Some(es[i].key) && Date(hs[i]) == now {
        if i > 0 {
          assert hs[i] == tl[i - 1] && es[i] == es[1..][i - 1];
        }
      }
    }
  }

  // ---------------------------------------------------------------------
  // The three lookups, condition by condition

  lemma MatchesAppend(a: seq<Cond>, b: seq<Cond>, r: Row)
    ensures Matches(a + b, r) <==> Matches(a, r) && Matches(b, r)
  {
    if Matches(a, r) && Matches(b, r) {
      forall i | 0 <= i < |a + b| ensures Holds((a + b)[i], r) {
        if i >= |a| {
          assert (a + b)[i] == b[i - |a|];
        }
      }
    }
    if Matches(a + b, r) {
      forall i | 0 <= i < |a| ensures Holds(a[i], r) {
        assert (a + b)[i] == a[i];
      }
      forall i | 0 <= i < |b| ensures Holds(b[i], r) {
        assert (a + b)[|a| + i] == b[i];
      }
    }
  }

  /** A filter's conditions hold on a row exactly when each of the five
    * parts does; the owner and scope parts hold exactly on the rows in
    * the filter's view. */
  lemma CondsMatch(f: FilterView, r: Row)
    ensures Matches(CreateQuery(f).where, r) <==>
              Matches(IdOrKeyCond(f), r) && Matches(ParentCond(f), r) && Matches(TypeCond(f), r)
              && InView(f.scope, f.userId, r)
  {
    var a, b, c, d, e := IdOrKeyCond(f), OwnerCond(f), ParentCond(f), [ScopeCond(f)], TypeCond(f);
    MatchesAppend(a + b + c + d, e, r);
    MatchesAppend(a + b + c, d, r);
    MatchesAppend(a + b, c, r);
    MatchesAppend(a, b, r);
    assert Matches(d, r) <==> Holds(ScopeCond(f), r) by {
      assert d[0] == ScopeCond(f);
    }
    if Truthy(f.userId) {
      assert Matches(b, r) <==> Holds(b[0], r);
    }
  }

  /** `getById`'s conditions: the id and the view. */
  lemma ByIdMatch(x: int, withChildren: bool, scope: Option<string>, userId: Option<string>, r: Row)
    ensures Matches(CreateQuery(ByIdFilter(x, withChildren, scope, userId)).where, r) <==> r.id == x && InView(scope, userId, r)
  {
    var f := ByIdFilter(x, withChildren, scope, userId);
    CondsMatch(f, r);
    assert TypeOf(None, Null) == None;
    assert Matches(IdOrKeyCond(f), r) <==> Holds(IdOrKeyCond(f)[0], r);
  }

  /** `getChildren`'s conditions: the parent and the view. */
  lemma ChildMatch(x: int, scope: Option<string>, userId: Option<string>, r: Row)
    requires x != 0
    ensures Matches(CreateQuery(ChildrenFilter(Some(x), scope, userId)).where, r)
            <==> r.fields.parentId == Some(x) && InView(scope, userId, r)
  {
    var f := ChildrenFilter(Some(x), scope, userId);
    CondsMatch(f, r);
    assert TypeOf(None, Null) == None;
    assert Matches(ParentCond(f), r) <==> Holds(ParentCond(f)[0], r);
  }

  /** `getData`'s conditions: the key, the parent when it is truthy, and the
    * view. */
  lemma DataMatch(k: string, scope: Option<string>, pid: Option<int>, userId: Option<string>, r: Row)
    requires Truthy(Some(k))
    ensures Matches(CreateQuery(DataFilter(k, scope, pid, userId)).where, r)
            <==> r.fields.key == Some(k) && (TruthyInt(pid) ==> r.fields.parentId == pid) && InView(scope, userId, r)
  {
    var f := DataFilter(k, scope, pid, userId);
    CondsMatch(f, r);
    assert TypeOf(None, Null) == None;
    assert Matches(IdOrKeyCond(f), r) <==> Holds(IdOrKeyCond(f)[0], r);
    if TruthyInt(pid) {
      assert Matches(ParentCond(f), r) <==> Holds(ParentCond(f)[0], r);
    }
  }

  /** One row, grouped, sorted and not limited, stays itself. */
  lemma SelectOne(r: Row)
    ensures SortDesc(Newest([r])) == [r] && Limit([r], None) == [r]
  {
    assert IsNewest([r], 0);
    assert NewestUpTo([r], 1) == NewestUpTo([r], 0) + [r] == [r];
    assert [r][..0] == [];
    assert SortDesc([r]) == InsertDesc(SortDesc([]), r) == [r];
  }

  /** `getById` finds exactly the row with that id, when it is in view. */
  lemma FindById(rows: seq<Row>, i: int, scope: Option<string>, userId: Option<string>)
    requires UniqueIds(rows) && 0 <= i < |rows| && InView(scope, userId, rows[i])
    ensures Select(rows, CreateQuery(ByIdFilter(rows[i].id, true, scope, userId))) == [rows[i]]
  {
    var x := rows[i].id;
    var q := CreateQuery(ByIdFilter(x, true, scope, userId));
    var a, b := rows[..i], rows[i + 1..];
    assert rows == a + [rows[i]] + b;
    forall j | 0 <= j < |a| ensures !Matches(q.where, a[j]) {
      ByIdMatch(x, true, scope, userId, a[j]);
    }
    forall j | 0 <= j < |b| ensures !Matches(q.where, b[j]) {
      ByIdMatch(x, true, scope, userId, b[j]);
      assert b[j] == rows[i + 1 + j];
    }
    ByIdMatch(x, true, scope, userId, rows[i]);
    WhereAppend(a + [rows[i]], b, q.where);
    WhereAppend(a, [rows[i]], q.where);
    WhereNone(a, q.where);
    WhereNone(b, q.where);
    WhereSingle(rows[i], q.where);
    assert Where(rows, q.where) == [rows[i]];
    SelectOne(rows[i]);
  }

  lemma HeadsCons(es: seq<Entry>, scope: Option<string>, pid: Option<int>, userId: Option<string>, now: int, y: int)
    requires es != []
    ensures Heads(es, scope, pid, userId, now, y)
            == [HeadRow(es[0].key, es[0].val, scope, pid, userId, now, y)] + Heads(es[1..], scope, pid, userId, now, y + Size(es[0].val))
  {
  }

  /** No row of `rows` satisfies every condition. */
  predicate NoneMatch(rows: seq<Row>, conds: seq<Cond>)
  {
    forall j :: 0 <= j < |rows| ==> !Matches(conds, rows[j])
  }

  /** A matching row, rows that do not match, then the rest. */
  lemma WhereFirst(h: Row, inner: seq<Row>, rest: seq<Row>, conds: seq<Cond>)
    requires Matches(conds, h) && NoneMatch(inner, conds)
    ensures Where([h] + inner + rest, conds) == [h] + Where(rest, conds)
  {
    WhereAppend([h] + inner, rest, conds);
    WhereAppend([h], inner, conds);
    WhereSingle(h, conds);
    WhereNone(inner, conds);
  }

  /** The rows below an entry laid out from `y` do not answer the children
    * query of its parent `x`. */
  lemma BelowNoMatch(v: Value, scope: Option<string>, x: int, userId: Option<string>, now: int, y: int)
    requires 1 <= x < y
    ensures NoneMatch(if v.Arr? then LayoutOf(v.entries, scope, Some(y), userId, now, y + 1) else [],
                      CreateQuery(ChildrenFilter(Some(x), scope, userId)).where)
  {
    if v.Arr? {
      var inner := LayoutOf(v.entries, scope, Some(y), userId, now, y + 1);
      LayoutOfShape(v.entries, scope, Some(y), userId, now, y + 1);
      forall j | 0 <= j < |inner|
        ensures !Matches(CreateQuery(ChildrenFilter(Some(x), scope, userId)).where, inner[j])
      {
        ChildMatch(x, scope, userId, inner[j]);
        assert inner[j] in inner;
      }
    }
  }

  /** The children query under node `x` keeps, of the rows of the entries
    * laid out after it, exactly the entries' own rows. */
  lemma {:induction false} WhereChildren(es: seq<Entry>, scope: Option<string>, x: int,
                                         userId: Option<string>, now: int, y: int)
    requires 1 <= x < y && (scope.None? || Truthy(scope))
    ensures Where(LayoutOf(es, scope, Some(x), userId, now, y), CreateQuery(ChildrenFilter(Some(x), scope, userId)).where)
            == Heads(es, scope, Some(x), userId, now, y)
    decreases es
  {
    var conds := CreateQuery(ChildrenFilter(Some(x), scope, userId)).where;
    if es != [] {
      var e := es[0];
      var y' := y + Size(e.val);
      var h := HeadRow(e.key, e.val, scope, Some(x), userId, now, y);
      var inner := if e.val.Arr? then LayoutOf(e.val.entries, scope, Some(y), userId, now, y + 1) else [];
      var rest := LayoutOf(es[1..], scope, Some(x), userId, now, y');
      assert LayoutOf(es, scope, Some(x), userId, now, y) == [h] + inner + rest;
      ChildMatch(x, scope, userId, h);
      BelowNoMatch(e.val, scope, x, userId, now, y);
      WhereFirst(h, inner, rest, conds);
      WhereChildren(es[1..], scope, x, userId, now, y');
      HeadsCons(es, scope, Some(x), userId, now, y);
      assert Where(LayoutOf(es, scope, Some(x), userId, now, y), conds) == [h] + Where(rest, conds);
      assert Where(rest, conds) == Heads(es[1..], scope, Some(x), userId, now, y');
      assert Heads(es, scope, Some(x), userId, now, y) == [h] + Heads(es[1..], scope, Some(x), userId, now, y');
    } else {
      assert LayoutOf(es, scope, Some(x), userId, now, y) == [];
    }
  }

  /** Rows that point into no part of [x, x + 1) do not answer the children
    * query of `x`. */
  lemma NoChildMatch(rows: seq<Row>, x: int, scope: Option<string>, userId: Option<string>)
    requires x != 0 && Avoids(rows, x, x + 1)
    ensures forall j :: 0 <= j < |rows| ==> !Matches(CreateQuery(ChildrenFilter(Some(x), scope, userId)).where, rows[j])
  {
    forall j | 0 <= j < |rows|
      ensures !Matches(CreateQuery(ChildrenFilter(Some(x), scope, userId)).where, rows[j])
    {
      ChildMatch(x, scope, userId, rows[j]);
      assert rows[j] in rows;
    }
  }

  /** Only the middle part answers. */
  lemma WhereOnly(pre: seq<Row>, mid: seq<Row>, post: seq<Row>, conds: seq<Cond>)
    requires forall j :: 0 <= j < |pre| ==> !Matches(conds, pre[j])
    requires forall j :: 0 <= j < |post| ==> !Matches(conds, post[j])
    ensures Where(pre + mid + post, conds) == Where(mid, conds)
  {
    WhereAppend(pre + mid, post, conds);
    WhereAppend(pre, mid, conds);
    WhereNone(pre, conds);
    WhereNone(post, conds);
    assert [] + Where(mid, conds) + [] == Where(mid, conds);
  }

  /** No row of `pre` or `post` points at `x`. */
  predicate Apart(pre: seq<Row>, post: seq<Row>, x: int)
  {
    x != 0 && Avoids(pre, x, x + 1) && Avoids(post, x, x + 1)
  }

  /** Rows of pairwise distinct keys, all written at `d`. */
  predicate DistinctAt(hs: seq<Row>, d: int)
  {
    (forall i, j :: 0 <= i < j < |hs| ==> hs[i].fields.key != hs[j].fields.key)
    && (forall i :: 0 <= i < |hs| ==> Date(hs[i]) == d)
  }

  /** The entries' own rows have distinct keys when the entries do. */
  lemma HeadsDistinct(es: seq<Entry>, scope: Option<string>, pid: Option<int>,
                      userId: Option<string>, now: int, id: int)
    ensures UniqueKeys(es) ==> DistinctAt(Heads(es, scope, pid, userId, now, id), now)
  {
    if UniqueKeys(es) {
      HeadsShape(es, scope, pid, userId, now, id);
    }
  }

  /** Rows of distinct keys and one date are their own groups, already in
    * order. */
  lemma GroupsOf(hs: seq<Row>, d: int)
    ensures DistinctAt(hs, d) ==> Newest(hs) == hs && SortDesc(hs) == hs
  {
    if DistinctAt(hs, d) {
      NewestDistinctKeys(hs);
      SortDescSameDate(hs, d);
    }
  }

  /** Rows not pointing at `x` around rows that answer the children query of
    * `x` with rows of distinct keys and one date: `getChildren` returns those
    * rows as they are. */
  lemma SelectAround(pre: seq<Row>, mid: seq<Row>, post: seq<Row>, hs: seq<Row>, x: int,
                     scope: Option<string>, userId: Option<string>, d: int)
    ensures Apart(pre, post, x) && Where(mid, CreateQuery(ChildrenFilter(Some(x), scope, userId)).where) == hs
            && DistinctAt(hs, d)
            ==> Select(pre + mid + post, CreateQuery(ChildrenFilter(Some(x), scope, userId))) == hs
  {
    var q := CreateQuery(ChildrenFilter(Some(x), scope, userId));
    if Apart(pre, post, x) && DistinctAt(hs, d) {
      NoChildMatch(pre, x, scope, userId);
      NoChildMatch(post, x, scope, userId);
      WhereOnly(pre, mid, post, q.where);
      GroupsOf(hs, d);
    }
  }

  /** `getChildren` of node `x`, whose entries `es` are laid out from `x + 1`
    * (as `mid`) with nothing around them pointing at `x`, returns the
    * entries' rows (`hs`) in order. */
  lemma SelectChildren(pre: seq<Row>, mid: seq<Row>, post: seq<Row>, hs: seq<Row>, es: seq<Entry>,
                       scope: Option<string>, userId: Option<string>, now: int, x: int)
    requires 1 <= x && (scope.None? || Truthy(scope)) && UniqueKeys(es) && Apart(pre, post, x)
    requires mid == LayoutOf(es, scope, Some(x), userId, now, x + 1) && hs == Heads(es, scope, Some(x), userId, now, x + 1)
    ensures Select(pre + mid + post, CreateQuery(ChildrenFilter(Some(x), scope, userId))) == hs
  {
    HeadsDistinct(es, scope, Some(x), userId, now, x + 1);
    WhereChildren(es, scope, x, userId, now, x + 1);
    SelectAround(pre, mid, post, hs, x, scope, userId, now);
  }

  // ---------------------------------------------------------------------
  // Reading the saved rows back

  /** The node `get` makes of the row of `k => v`: its id and key, the type
    * that marks it as an array exactly when `v` is one, and `v` itself as
    * value otherwise. */
  lemma HeadLoaded(k: string, v: Value, scope: Option<string>, pid: Option<int>,
                   userId: Option<string>, now: int, x: int)
    requires v.Obj? ==> v.className != TYPE_ARRAY
    ensures var n := Loaded(Hydrate(HeadRow(k, v, scope, pid, userId, now, x), AllColumns));
            && n.id == Some(x) && n.key == Some(k)
            && (TypeOf(n.typeName, n.value) == Some(TYPE_ARRAY) <==> v.Arr?)
            && (!v.Arr? ==> n.value == v)
  {
  }

  /** Every value was fetched: the node `getById` returns for the row of
    * an entry has the entry's key and denormalizes to its value. */
  ghost predicate Fetched(rows: seq<Row>, id: int, scope: Option<string>, userId: Option<string>, fuel: nat, e: Entry)
  {
    var n := FetchById(rows, id, true, scope, userId, fuel);
    n.key == Some(e.key) && Denormalize(n) == e.val
  }

  lemma KeysSnoc(acc: seq<Entry>, e: Entry)
    ensures Keys(acc + [e]) == Keys(acc) + [e.key]
  {
    assert (acc + [e])[..|acc|] == acc;
  }

  /** One step of `denormalize`'s loop on a child that denormalizes to `e`
    * under a key not yet set. */
  lemma DenormalizeStep(cs: seq<Node>, e: Entry, acc: seq<Entry>)
    requires cs != [] && cs[0].key == Some(e.key) && Denormalize(cs[0]) == e.val && e.key !in Keys(acc)
    ensures DenormalizeChildren(cs, acc) == DenormalizeChildren(cs[1..], acc + [e])
  {
    var c := cs[0];
    assert (if TypeOf(c.typeName, c.value) == Some(TYPE_ARRAY) then Denormalize(c) else c.value) == e.val;
    assert Put(acc, e.key, e.val) == acc + [e];
  }

  /** Child `i` has the key of entry `i` and denormalizes to its value. */
  ghost predicate Rebuilds(cs: seq<Node>, es: seq<Entry>)
  {
    |cs| == |es| && forall i :: 0 <= i < |cs| ==> cs[i].key == Some(es[i].key) && Denormalize(cs[i]) == es[i].val
  }

  /** No entry's key is set in `acc` yet. */
  predicate NoneSet(es: seq<Entry>, acc: seq<Entry>)
  {
    forall i :: 0 <= i < |es| ==> es[i].key !in Keys(acc)
  }

  lemma RebuildsTail(cs: seq<Node>, es: seq<Entry>, acc: seq<Entry>)
    requires cs != [] && Rebuilds(cs, es) && UniqueKeys(es) && NoneSet(es, acc)
    ensures Rebuilds(cs[1..], es[1..]) && UniqueKeys(es[1..]) && NoneSet(es[1..], acc + [es[0]])
    ensures cs[0].key == Some(es[0].key) && Denormalize(cs[0]) == es[0].val && es[0].key !in Keys(acc)
  {
    KeysSnoc(acc, es[0]);
    forall i | 0 <= i < |es| - 1 ensures cs[1..][i] == cs[i + 1] && es[1..][i] == es[i + 1] {
    }
  }

  lemma AppendCons(acc: seq<Entry>, es: seq<Entry>)
    requires es != []
    ensures acc + [es[0]] + es[1..] == acc + es
  {
    assert [es[0]] + es[1..] == es;
  }

  /** `denormalize` of children that denormalize to the entries, under
    * distinct keys, rebuilds the entries. */
  lemma {:induction false} DenormalizeList(cs: seq<Node>, es: seq<Entry>, acc: seq<Entry>)
    requires Rebuilds(cs, es) && UniqueKeys(es) && NoneSet(es, acc)
    ensures DenormalizeChildren(cs, acc) == acc + es
    decreases cs
  {
    if cs == [] {
      assert acc + es == acc;
    } else {
      var e := es[0];
      RebuildsTail(cs, es, acc);
      DenormalizeStep(cs, e, acc);
      DenormalizeList(cs[1..], es[1..], acc + [e]);
      AppendCons(acc, es);
    }
  }

  lemma Assoc(a: seq<Row>, b: seq<Row>, c: seq<Row>)
    ensures a + b + c == a + (b + c)
  {
  }

  lemma Regroup(pre: seq<Row>, a: seq<Row>, b: seq<Row>, post: seq<Row>)
    ensures pre + (a + b) + post == (pre + a) + b + post
    ensures pre + (a + b) + post == pre + a + (b + post)
  {
  }

  lemma At(pre: seq<Row>, l: seq<Row>, post: seq<Row>)
    requires |l| > 0
    ensures (pre + l + post)[|pre|] == l[0]
  {
  }

  lemma AvoidsAppend(a: seq<Row>, b: seq<Row>, lo: int, hi: int)
    requires Avoids(a, lo, hi) && Avoids(b, lo, hi)
    ensures Avoids(a + b, lo, hi)
  {
  }

  lemma AvoidsWithin(rows: seq<Row>, lo: int, hi: int, lo': int, hi': int)
    requires Avoids(rows, lo, hi) && lo <= lo' && hi' <= hi
    ensures Avoids(rows, lo', hi')
  {
  }

  /** The layout of `k => v` from `id` points only at `pid` and into its own
    * ids. */
  lemma AvoidsLayout(k: string, v: Value, scope: Option<string>, pid: Option<int>,
                     userId: Option<string>, now: int, id: int, lo: int, hi: int)
    requires pid.None? || pid.value < lo || hi <= pid.value
    requires id + Size(v) <= lo || hi <= id
    ensures Avoids(Layout(k, v, scope, pid, userId, now, id), lo, hi)
  {
    var l := Layout(k, v, scope, pid, userId, now, id);
    LayoutShape(k, v, scope, pid, userId, now, id);
    forall r | r in l ensures r.fields.parentId.None? || r.fields.parentId.value < lo || hi <= r.fields.parentId.value {
      var j :| 0 <= j < |l| && l[j] == r;
    }
  }

  lemma AvoidsLayoutOf(es: seq<Entry>, scope: Option<string>, pid: Option<int>,
                       userId: Option<string>, now: int, id: int, lo: int, hi: int)
    requires pid.None? || pid.value < lo || hi <= pid.value
    requires id + SizeOf(es) <= lo || hi <= id
    ensures Avoids(LayoutOf(es, scope, pid, userId, now, id), lo, hi)
  {
    LayoutOfShape(es, scope, pid, userId, now, id);
  }

  /** `getById` on the row at `i`, when it is in view. */
  lemma FetchByIdAt(rows: seq<Row>, i: int, scope: Option<string>, userId: Option<string>, fuel: nat)
    requires UniqueIds(rows) && 0 <= i < |rows| && InView(scope, userId, rows[i])
    ensures FetchById(rows, rows[i].id, true, scope, userId, fuel)
            == Loaded(Hydrate(rows[i], AllColumns)).(children := FetchChildren(rows, Some(rows[i].id), true, scope, userId, fuel))
  {
    var f := ByIdFilter(rows[i].id, true, scope, userId);
    var q := CreateQuery(f);
    FindById(rows, i, scope, userId);
    assert q.projection == AllColumns;
    assert FirstNode(rows, q) == Hydrate(rows[i], AllColumns);
    var n := Loaded(Hydrate(rows[i], AllColumns));
    assert n.id == Some(rows[i].id);
    assert FetchSpec(rows, f, fuel) == Assemble(rows, n, true, scope, userId, fuel);
  }

  /** The children `getChildren` fetches for the entries' rows rebuild the
    * entries when each row does. */
  lemma RebuildsFetched(rows: seq<Row>, hs: seq<Row>, es: seq<Entry>, scope: Option<string>,
                        userId: Option<string>, fuel: nat)
    requires fuel > 0 && AllFetched(rows, hs, es, scope, userId, fuel - 1)
    ensures Rebuilds(FetchEach(rows, hs, true, scope, userId, fuel), es)
  {
    var cs := FetchEach(rows, hs, true, scope, userId, fuel);
    forall i | 0 <= i < |cs| ensures cs[i].key == Some(es[i].key) && Denormalize(cs[i]) == es[i].val {
      FetchEachAt(rows, hs, true, scope, userId, fuel, i);
    }
  }

  /** `getById` on node `x`, laid out as the node of `k => v`: the loaded
    * head row with the children `getChildren` finds. */
  lemma NodeAt(rows: seq<Row>, pre: seq<Row>, post: seq<Row>, k: string, v: Value,
               scope: Option<string>, pid: Option<int>, userId: Option<string>,
               now: int, x: int, fuel: nat)
    requires PlacedNode(rows, pre, post, k, v, scope, pid, userId, now, x)
    ensures FetchById(rows, x, true, scope, userId, fuel)
            == Loaded(Hydrate(HeadRow(k, v, scope, pid, userId, now, x), AllColumns)).(children := FetchChildren(rows, Some(x), true, scope, userId, fuel))
  {
    var l := Layout(k, v, scope, pid, userId, now, x);
    assert l[0] == HeadRow(k, v, scope, pid, userId, now, x);
    At(pre, l, post);
    FetchByIdAt(rows, |pre|, scope, userId, fuel);
  }

  /** `es` are laid out from `y` under node `x` in the middle of `rows`,
    * whose ids are distinct, and nothing around them points into their
    * subtrees. */
  predicate Placed(rows: seq<Row>, pre: seq<Row>, post: seq<Row>, es: seq<Entry>, scope: Option<string>,
                   x: int, userId: Option<string>, now: int, y: int)
  {
    && rows == pre + LayoutOf(es, scope, Some(x), userId, now, y) + post
    && UniqueIds(rows) && 1 <= x < y && (scope.None? || Truthy(scope))
    && Avoids(pre, y, y + SizeOf(es)) && Avoids(post, y, y + SizeOf(es))
  }

  /** `k => v` is laid out from `x` under `pid` in the middle of `rows`, whose
    * ids are distinct, and nothing around it points into its subtree. */
  predicate PlacedNode(rows: seq<Row>, pre: seq<Row>, post: seq<Row>, k: string, v: Value,
                       scope: Option<string>, pid: Option<int>, userId: Option<string>, now: int, x: int)
  {
    && rows == pre + Layout(k, v, scope, pid, userId, now, x) + post
    && UniqueIds(rows) && 1 <= x && (pid.None? || pid.value < x) && (scope.None? || Truthy(scope))
    && Avoids(pre, x, x + Size(v)) && Avoids(post, x, x + Size(v))
  }

  /** The entries' values are well formed and no deeper than `fuel`. */
  predicate Fits(es: seq<Entry>, fuel: nat)
  {
    (forall i :: 0 <= i < |es| ==> WellFormed(es[i].val)) && DepthOf(es) <= fuel
  }

  /** `getById` on each of the rows `hs` rebuilds the matching entry. */
  ghost predicate AllFetched(rows: seq<Row>, hs: seq<Row>, es: seq<Entry>, scope: Option<string>,
                             userId: Option<string>, fuel: nat)
  {
    |hs| == |es| && forall i :: 0 <= i < |es| ==> Fetched(rows, hs[i].id, scope, userId, fuel, es[i])
  }

  /** An array node's layout is its head row, then its entries' layout from
    * the next id, with nothing around them pointing at the node. */
  lemma PlacedArray(rows: seq<Row>, pre: seq<Row>, post: seq<Row>, k: string, es: seq<Entry>,
                    scope: Option<string>, pid: Option<int>, userId: Option<string>, now: int, x: int)
    requires PlacedNode(rows, pre, post, k, Arr(es), scope, pid, userId, now, x)
    ensures var h := HeadRow(k, Arr(es), scope, pid, userId, now, x);
            Placed(rows, pre + [h], post, es, scope, x, userId, now, x + 1) && Apart(pre + [h], post, x)
  {
    var h := HeadRow(k, Arr(es), scope, pid, userId, now, x);
    var n := SizeOf(es);
    Regroup(pre, [h], LayoutOf(es, scope, Some(x), userId, now, x + 1), post);
    AvoidsWithin(pre, x, x + 1 + n, x, x + 1);
    AvoidsWithin(pre, x, x + 1 + n, x + 1, x + 1 + n);
    AvoidsWithin(post, x, x + 1 + n, x, x + 1);
    AvoidsWithin(post, x, x + 1 + n, x + 1, x + 1 + n);
    AvoidsAppend(pre, [h], x, x + 1);
    AvoidsAppend(pre, [h], x + 1, x + 1 + n);
  }

  /** The first entry's layout, then the rest's. */
  lemma PlacedCons(rows: seq<Row>, pre: seq<Row>, post: seq<Row>, es: seq<Entry>, scope: Option<string>,
                   x: int, userId: Option<string>, now: int, y: int)
    requires es != [] && Placed(rows, pre, post, es, scope, x, userId, now, y)
    ensures var s := Size(es[0].val);
            var a := Layout(es[0].key, es[0].val, scope, Some(x), userId, now, y);
            var rest := LayoutOf(es[1..], scope, Some(x), userId, now, y + s);
            && PlacedNode(rows, pre, rest + post, es[0].key, es[0].val, scope, Some(x), userId, now, y)
            && Placed(rows, pre + a, post, es[1..], scope, x, userId, now, y + s)
  {
    var e := es[0];
    var s := Size(e.val);
    var n := SizeOf(es);
    var a := Layout(e.key, e.val, scope, Some(x), userId, now, y);
    var rest := LayoutOf(es[1..], scope, Some(x), userId, now, y + s);
    LayoutOfCons(es, scope, Some(x), userId, now, y);
    Regroup(pre, a, rest, post);
    AvoidsWithin(pre, y, y + n, y, y + s);
    AvoidsWithin(post, y, y + n, y, y + s);
    AvoidsWithin(pre, y, y + n, y + s, y + n);
    AvoidsWithin(post, y, y + n, y + s, y + n);
    AvoidsLayoutOf(es[1..], scope, Some(x), userId, now, y + s, y, y + s);
    AvoidsAppend(rest, post, y, y + s);
    AvoidsLayout(e.key, e.val, scope, Some(x), userId, now, y, y + s, y + n);
    AvoidsAppend(pre, a, y + s, y + n);
  }

  lemma FitsCons(es: seq<Entry>, fuel: nat)
    requires es != [] && Fits(es, fuel)
    ensures WellFormed(es[0].val) && Depth(es[0].val) <= fuel && Fits(es[1..], fuel)
  {
    assert forall i :: 0 <= i < |es| - 1 ==> es[1..][i] == es[i + 1];
  }

  lemma FitsArray(es: seq<Entry>, fuel: nat)
    requires WellFormed(Arr(es)) && Depth(Arr(es)) <= fuel
    ensures UniqueKeys(es) && fuel > 0 && Fits(es, fuel - 1)
  {
  }

  /** `getChildren` of node `x`, whose entries `es` are laid out from `x + 1`,
    * fetches children that `denormalize` turns back into `es`. */
  lemma {:induction false} ChildrenRebuild(rows: seq<Row>, pre: seq<Row>, post: seq<Row>, es: seq<Entry>,
                                           scope: Option<string>, userId: Option<string>,
                                           now: int, x: int, fuel: nat)
    requires Placed(rows, pre, post, es, scope, x, userId, now, x + 1) && Apart(pre, post, x)
    requires UniqueKeys(es) && fuel > 0 && Fits(es, fuel - 1)
    ensures DenormalizeChildren(FetchChildren(rows, Some(x), true, scope, userId, fuel), []) == es
    decreases es, 2
  {
    FetchEntries(rows, pre, post, es, scope, x, userId, now, x + 1, fuel - 1);
    RebuildAll(rows, Heads(es, scope, Some(x), userId, now, x + 1), es, scope, userId, fuel);
    ChildrenFetched(rows, pre, post, es, scope, userId, now, x, fuel);
  }

  /** `getChildren` of that node fetches each of the entries' rows by id. */
  lemma ChildrenFetched(rows: seq<Row>, pre: seq<Row>, post: seq<Row>, es: seq<Entry>,
                        scope: Option<string>, userId: Option<string>, now: int, x: int, fuel: nat)
    requires Placed(rows, pre, post, es, scope, x, userId, now, x + 1) && Apart(pre, post, x)
    requires UniqueKeys(es) && fuel > 0
    ensures FetchChildren(rows, Some(x), true, scope, userId, fuel)
            == FetchEach(rows, Heads(es, scope, Some(x), userId, now, x + 1), true, scope, userId, fuel)
  {
    SelectChildren(pre, LayoutOf(es, scope, Some(x), userId, now, x + 1), post,
                   Heads(es, scope, Some(x), userId, now, x + 1), es, scope, userId, now, x);
  }

  /** Children fetched from rows that each rebuild an entry of `es`
    * denormalize back to `es`. */
  lemma RebuildAll(rows: seq<Row>, hs: seq<Row>, es: seq<Entry>, scope: Option<string>,
                   userId: Option<string>, fuel: nat)
    requires fuel > 0 && AllFetched(rows, hs, es, scope, userId, fuel - 1) && UniqueKeys(es)
    ensures DenormalizeChildren(FetchEach(rows, hs, true, scope, userId, fuel), []) == es
  {
    RebuildsFetched(rows, hs, es, scope, userId, fuel);
    DenormalizeList(FetchEach(rows, hs, true, scope, userId, fuel), es, []);
  }

  /** `getById` on node `x`, laid out as the node of `k => v` with nothing
    * around it pointing into its subtree, rebuilds `v` under key `k`. */
  lemma {:induction false} FetchNode(rows: seq<Row>, pre: seq<Row>, post: seq<Row>, k: string, v: Value,
                                     scope: Option<string>, pid: Option<int>, userId: Option<string>,
                                     now: int, x: int, fuel: nat)
    requires PlacedNode(rows, pre, post, k, v, scope, pid, userId, now, x)
    requires WellFormed(v) && Depth(v) <= fuel
    ensures Fetched(rows, x, scope, userId, fuel, Entry(k, v))
    decreases v, 2
  {
    NodeAt(rows, pre, post, k, v, scope, pid, userId, now, x, fuel);
    HeadLoaded(k, v, scope, pid, userId, now, x);
    if v.Arr? {
      var h := HeadRow(k, v, scope, pid, userId, now, x);
      PlacedArray(rows, pre, post, k, v.entries, scope, pid, userId, now, x);
      FitsArray(v.entries, fuel);
      ChildrenRebuild(rows, pre + [h], post, v.entries, scope, userId, now, x, fuel);
    }
  }

  /** `getById` on the row of each entry laid out from `y` under node `x`
    * rebuilds that entry. */
  lemma {:induction false} FetchEntries(rows: seq<Row>, pre: seq<Row>, post: seq<Row>, es: seq<Entry>,
                                        scope: Option<string>, x: int, userId: Option<string>,
                                        now: int, y: int, fuel: nat)
    requires Placed(rows, pre, post, es, scope, x, userId, now, y) && Fits(es, fuel)
    ensures AllFetched(rows, Heads(es, scope, Some(x), userId, now, y), es, scope, userId, fuel)
    decreases es, 1
  {
    if es != [] {
      FetchFirstEntry(rows, pre, post, es, scope, x, userId, now, y, fuel);
      FetchLaterEntries(rows, pre, post, es, scope, x, userId, now, y, fuel);
      HeadsFetched(rows, es, scope, x, userId, now, y, fuel);
    }
  }

  /** The first entry's row, at `y`, rebuilds the first entry. */
  lemma {:induction false} FetchFirstEntry(rows: seq<Row>, pre: seq<Row>, post: seq<Row>, es: seq<Entry>,
                                           scope: Option<string>, x: int, userId: Option<string>,
                                           now: int, y: int, fuel: nat)
    requires es != [] && Placed(rows, pre, post, es, scope, x, userId, now, y) && Fits(es, fuel)
    ensures Fetched(rows, y, scope, userId, fuel, es[0])
    decreases es, 0
  {
    var rest := LayoutOf(es[1..], scope, Some(x), userId, now, y + Size(es[0].val));
    PlacedFirst(rows, pre, post, es, scope, x, userId, now, y);
    FitsCons(es, fuel);
    FetchNode(rows, pre, rest + post, es[0].key, es[0].val, scope, Some(x), userId, now, y, fuel);
  }

  /** The rows of the later entries, laid out after the first one's, rebuild
    * those entries. */
  lemma {:induction false} FetchLaterEntries(rows: seq<Row>, pre: seq<Row>, post: seq<Row>, es: seq<Entry>,
                                             scope: Option<string>, x: int, userId: Option<string>,
                                             now: int, y: int, fuel: nat)
    requires es != [] && Placed(rows, pre, post, es, scope, x, userId, now, y) && Fits(es, fuel)
    ensures AllFetched(rows, Heads(es[1..], scope, Some(x), userId, now, y + Size(es[0].val)), es[1..],
                       scope, userId, fuel)
    decreases es, 0
  {
    var s := Size(es[0].val);
    var a := Layout(es[0].key, es[0].val, scope, Some(x), userId, now, y);
    PlacedRest(rows, pre, post, es, scope, x, userId, now, y);
    FitsCons(es, fuel);
    FetchEntries(rows, pre + a, post, es[1..], scope, x, userId, now, y + s, fuel);
  }

  /** The first entry is laid out at `y`, before the later entries' rows. */
  lemma PlacedFirst(rows: seq<Row>, pre: seq<Row>, post: seq<Row>, es: seq<Entry>, scope: Option<string>,
                    x: int, userId: Option<string>, now: int, y: int)
    requires es != [] && Placed(rows, pre, post, es, scope, x, userId, now, y)
    ensures PlacedNode(rows, pre, LayoutOf(es[1..], scope, Some(x), userId, now, y + Size(es[0].val)) + post,
                       es[0].key, es[0].val, scope, Some(x), userId, now, y)
  {
    PlacedCons(rows, pre, post, es, scope, x, userId, now, y);
  }

  /** The later entries are laid out after the first one's rows. */
  lemma PlacedRest(rows: seq<Row>, pre: seq<Row>, post: seq<Row>, es: seq<Entry>, scope: Option<string>,
                   x: int, userId: Option<string>, now: int, y: int)
    requires es != [] && Placed(rows, pre, post, es, scope, x, userId, now, y)
    ensures Placed(rows, pre + Layout(es[0].key, es[0].val, scope, Some(x), userId, now, y), post, es[1..],
                   scope, x, userId, now, y + Size(es[0].val))
  {
    PlacedCons(rows, pre, post, es, scope, x, userId, now, y);
  }

  /** The entries' rows: the first entry's at `y`, then the rest's. */
  lemma HeadsFetched(rows: seq<Row>, es: seq<Entry>, scope: Option<string>, x: int, userId: Option<string>,
                     now: int, y: int, fuel: nat)
    requires es != []
    ensures && Fetched(rows, y, scope, userId, fuel, es[0])
            && AllFetched(rows, Heads(es[1..], scope, Some(x), userId, now, y + Size(es[0].val)), es[1..], scope, userId, fuel)
            ==> AllFetched(rows, Heads(es, scope, Some(x), userId, now, y), es, scope, userId, fuel)
  {
    var hs := Heads(es, scope, Some(x), userId, now, y);
    var tl := Heads(es[1..], scope, Some(x), userId, now, y + Size(es[0].val));
    HeadsCons(es, scope, Some(x), userId, now, y);
    if Fetched(rows, y, scope, userId, fuel, es[0]) && AllFetched(rows, tl, es[1..], scope, userId, fuel) {
      forall i | 0 <= i < |es| ensures Fetched(rows, hs[i].id, scope, userId, fuel, es[i]) {
        if i > 0 {
          assert hs[i] == tl[i - 1] && es[i] == es[1..][i - 1];
        }
      }
    }
  }

  /** Of the rows `saveData` lays out for `k => v`, only the node's own row
    * answers the query `getData(k)` builds. */
  lemma LayoutData(k: string, v: Value, scope: Option<string>, pid: Option<int>,
                   userId: Option<string>, now: int, x: int)
    requires Truthy(Some(k)) && KeyFree(k, v) && (scope.None? || Truthy(scope))
    ensures Where(Layout(k, v, scope, pid, userId, now, x), CreateQuery(DataFilter(k, scope, pid, userId)).where)
            == [HeadRow(k, v, scope, pid, userId, now, x)]
  {
    var conds := CreateQuery(DataFilter(k, scope, pid, userId)).where;
    var h := HeadRow(k, v, scope, pid, userId, now, x);
    var inner := if v.Arr? then LayoutOf(v.entries, scope, Some(x), userId, now, x + 1) else [];
    assert Layout(k, v, scope, pid, userId, now, x) == [h] + inner;
    InnerNoData(k, v, scope, pid, userId, now, x);
    HeadData(k, v, scope, pid, userId, now, x);
    WhereAppend([h], inner, conds);
  }

  /** The node's own row answers the query `getData(k)` builds. */
  lemma HeadData(k: string, v: Value, scope: Option<string>, pid: Option<int>,
                 userId: Option<string>, now: int, x: int)
    requires Truthy(Some(k)) && (scope.None? || Truthy(scope))
    ensures var h := HeadRow(k, v, scope, pid, userId, now, x);
            Where([h], CreateQuery(DataFilter(k, scope, pid, userId)).where) == [h]
  {
    var h := HeadRow(k, v, scope, pid, userId, now, x);
    DataMatch(k, scope, pid, userId, h);
    WhereSingle(h, CreateQuery(DataFilter(k, scope, pid, userId)).where);
  }

  /** No row below the node answers it when `k` is free in `v`. */
  lemma InnerNoData(k: string, v: Value, scope: Option<string>, pid: Option<int>,
                    userId: Option<string>, now: int, x: int)
    requires Truthy(Some(k)) && KeyFree(k, v)
    ensures Where(if v.Arr? then LayoutOf(v.entries, scope, Some(x), userId, now, x + 1) else [],
                  CreateQuery(DataFilter(k, scope, pid, userId)).where) == []
  {
    if v.Arr? {
      LayoutOfKeys(k, v.entries, scope, Some(x), userId, now, x + 1);
    }
    NoData(if v.Arr? then LayoutOf(v.entries, scope, Some(x), userId, now, x + 1) else [], k, scope, pid, userId);
  }

  /** Rows of other keys do not answer the query `getData(k)` builds. */
  lemma NoData(rows: seq<Row>, k: string, scope: Option<string>, pid: Option<int>, userId: Option<string>)
    requires Truthy(Some(k)) && forall r :: r in rows ==> r.fields.key != Some(k)
    ensures Where(rows, CreateQuery(DataFilter(k, scope, pid, userId)).where) == []
  {
    var conds := CreateQuery(DataFilter(k, scope, pid, userId)).where;
    forall j | 0 <= j < |rows| ensures !Matches(conds, rows[j]) {
      DataMatch(k, scope, pid, userId, rows[j]);
      assert rows[j] in rows;
    }
    WhereNone(rows, conds);
  }

  /** Every stored row answering the query `getData(k)` builds has key `k`
    * and is no newer than the clock. */
  lemma DataOnly(rows: seq<Row>, k: string, scope: Option<string>, pid: Option<int>,
                 userId: Option<string>, now: int)
    requires Truthy(Some(k)) && forall r :: r in rows ==> Date(r) <= now
    ensures forall r :: r in Where(rows, CreateQuery(DataFilter(k, scope, pid, userId)).where) ==>
              r.fields.key == Some(k) && Date(r) <= now
  {
    var conds := CreateQuery(DataFilter(k, scope, pid, userId)).where;
    WhereSound(rows, conds);
    forall r | r in Where(rows, conds) ensures r.fields.key == Some(k) {
      DataMatch(k, scope, pid, userId, r);
    }
  }

  /** A row written last, at the clock, is the one newest row of its key. */
  lemma NewestLast(w: seq<Row>, h: Row, d: int)
    requires forall r :: r in w ==> r.fields.key == h.fields.key && Date(r) <= d
    requires Date(h) == d
    ensures Limit(SortDesc(Newest(w + [h])), None) == [h]
  {
    var rs := w + [h];
    forall i | 0 <= i < |rs| ensures rs[i].fields.key == rs[0].fields.key && Date(rs[i]) <= Date(rs[|rs| - 1]) {
      if i < |w| {
        assert rs[i] in w;
      }
      if 0 < |w| {
        assert rs[0] in w;
      }
    }
    NewestOneKey(rs);
    SelectOne(h);
  }

  /** `getData` finds the row `saveData` just wrote: of the rows with that
    * key in view, it is the newest. */
  lemma SelectData(rows: seq<Row>, k: string, v: Value, scope: Option<string>, pid: Option<int>,
                   userId: Option<string>, now: int, x: int)
    requires Truthy(Some(k)) && KeyFree(k, v) && (scope.None? || Truthy(scope))
    requires forall r :: r in rows ==> Date(r) <= now
    ensures Select(rows + Layout(k, v, scope, pid, userId, now, x), CreateQuery(DataFilter(k, scope, pid, userId)))
            == [HeadRow(k, v, scope, pid, userId, now, x)]
  {
    var conds := CreateQuery(DataFilter(k, scope, pid, userId)).where;
    WhereAppend(rows, Layout(k, v, scope, pid, userId, now, x), conds);
    LayoutData(k, v, scope, pid, userId, now, x);
    DataOnly(rows, k, scope, pid, userId, now);
    NewestLast(Where(rows, conds), HeadRow(k, v, scope, pid, userId, now, x), now);
  }

  // ---------------------------------------------------------------------
  // The round trip

  /** The rows after `saveData`: the stored ones, then the layout of
    * `k => v` under ids no stored row has or points into. */
  lemma SavedPlaced(st: Store, k: string, v: Value, scope: Option<string>, pid: Option<int>,
                    userId: Option<string>, now: int)
    requires ValidStore(st) && (scope.None? || Truthy(scope))
    requires pid.None? || pid.value < st.nextId
    requires forall r :: r in st.rows ==> r.fields.parentId.None? || r.fields.parentId.value < st.nextId
    ensures PlacedNode(st.rows + Layout(k, v, scope, pid, userId, now, st.nextId), st.rows, [],
                       k, v, scope, pid, userId, now, st.nextId)
  {
    var x := st.nextId;
    var l := Layout(k, v, scope, pid, userId, now, x);
    var rows := st.rows + l;
    LayoutShape(k, v, scope, pid, userId, now, x);
    assert UniqueIds(rows) by {
      forall i, j | 0 <= i < j < |rows| ensures rows[i].id != rows[j].id {
        if j >= |st.rows| {
          assert rows[j] == l[j - |st.rows|];
          if i >= |st.rows| {
            assert rows[i] == l[i - |st.rows|];
          } else {
            assert rows[i] == st.rows[i];
          }
        }
      }
    }
    assert rows == st.rows + l + [];
  }

  /** Two lookups whose queries return the same first row, with the same
    * fetch mode, scope and user, fetch the same node. */
  lemma SameFirst(rows: seq<Row>, f: FilterView, g: FilterView, fuel: nat)
    requires FirstNode(rows, CreateQuery(f)) == FirstNode(rows, CreateQuery(g))
    requires FetchesChildren(f.fetchMethod) == FetchesChildren(g.fetchMethod)
    requires f.scope == g.scope && f.userId == g.userId
    ensures FetchSpec(rows, f, fuel) == FetchSpec(rows, g, fuel)
  {
  }

  /** After `saveData`, `getData(k)` fetches what `getById` on the new node
    * fetches. */
  lemma DataIsById(rows: seq<Row>, pre: seq<Row>, k: string, v: Value, scope: Option<string>, pid: Option<int>,
                   userId: Option<string>, now: int, x: int, fuel: nat)
    requires PlacedNode(rows, pre, [], k, v, scope, pid, userId, now, x)
    requires Truthy(Some(k)) && KeyFree(k, v)
    requires forall r :: r in pre ==> Date(r) <= now
    ensures FetchSpec(rows, DataFilter(k, scope, pid, userId), fuel) == FetchById(rows, x, true, scope, userId, fuel)
  {
    var l := Layout(k, v, scope, pid, userId, now, x);
    var h := HeadRow(k, v, scope, pid, userId, now, x);
    assert rows == pre + l;
    SelectData(pre, k, v, scope, pid, userId, now, x);
    assert l[0] == h;
    At(pre, l, []);
    FindById(rows, |pre|, scope, userId);
    var f := DataFilter(k, scope, pid, userId);
    var g := ByIdFilter(x, true, scope, userId);
    assert CreateQuery(f).projection == AllColumns && CreateQuery(g).projection == AllColumns;
    assert FirstNode(rows, CreateQuery(f)) == Hydrate(h, AllColumns);
    SameFirst(rows, f, g, fuel);
  }

  /** `getData(k)` right after `saveData(k, v)` returns `v`: the table
    * exists, the key is truthy and not reused inside `v`, the scope is
    * null or truthy, the stored parent ids and the parent id given lie
    * below the next id, no stored row is newer than the clock, every object
    * in `v` is one `save` serializes, and the recursion may go as deep as
    * `v`. */
  lemma GetDataAfterSaveData(st: Store, k: string, v: Value, scope: Option<string>, pid: Option<int>,
                             userId: Option<string>, now: int, fuel: nat)
    requires ValidStore(st) && st.hasTable
    requires Truthy(Some(k)) && KeyFree(k, v) && (scope.None? || Truthy(scope))
    requires pid.None? || pid.value < st.nextId
    requires forall r :: r in st.rows ==>
               Date(r) <= now && (r.fields.parentId.None? || r.fields.parentId.value < st.nextId)
    requires WellFormed(v) && ObjectsSerialized(v) && Depth(v) <= fuel
    ensures var st' := SaveDataSpec(st, k, v, scope, pid, userId, now).1;
            Denormalize(FetchSpec(st'.rows, DataFilter(k, scope, pid, userId), fuel)) == v
  {
    var x := st.nextId;
    var rows := st.rows + Layout(k, v, scope, pid, userId, now, x);
    SavedRows(st, k, v, scope, pid, userId, now);
    SavedPlaced(st, k, v, scope, pid, userId, now);
    FetchNode(rows, st.rows, [], k, v, scope, pid, userId, now, x, fuel);
    DataIsById(rows, st.rows, k, v, scope, pid, userId, now, x, fuel);
  }

  // ---------------------------------------------------------------------
  // The scope `getChildren` drops

  /** The children query as the source builds it asks only for rows without
    * a scope, whatever the scope of the parent's lookup. */
  lemma ChildrenAsWrittenUnscoped(rows: seq<Row>, pid: Option<int>, userId: Option<string>)
    ensures forall r :: r in Select(rows, CreateQuery(ChildrenFilterAsWritten(pid, userId))) ==> r.fields.scope.None?
  {
    var f := ChildrenFilterAsWritten(pid, userId);
    SelectSound(rows, CreateQuery(f));
    forall r | r in Select(rows, CreateQuery(f)) ensures r.fields.scope.None? {
      CondsMatch(f, r);
    }
  }

  /** On a table whose rows all carry a scope, the children query as the
    * source builds it returns nothing. */
  lemma ChildrenAsWrittenMisses(rows: seq<Row>, pid: Option<int>, userId: Option<string>)
    requires forall r :: r in rows ==> r.fields.scope.Some?
    ensures Select(rows, CreateQuery(ChildrenFilterAsWritten(pid, userId))) == []
  {
    var f := ChildrenFilterAsWritten(pid, userId);
    forall j | 0 <= j < |rows| ensures !Matches(CreateQuery(f).where, rows[j]) {
      CondsMatch(f, rows[j]);
      assert rows[j] in rows;
    }
    WhereNone(rows, CreateQuery(f).where);
    assert Newest([]) == [] && SortDesc([]) == [];
  }

  /** A scoped array saved with `saveData` loses its entries on the way
    * back: saved as `k => [b => n]` in scope `s` into an empty table, the
    * children query as the source builds it finds none of the rows under the
    * array's node 1, where the query that keeps the scope finds the entry's
    * row. */
  lemma ScopedChildrenLost(k: string, b: string, n: int, s: string, now: int)
    requires Truthy(Some(s))
    ensures var rows := SaveDataSpec(Store(true, [], 1), k, Arr([Entry(b, Int(n))]), Some(s), None, None, now).1.rows;
            && Select(rows, CreateQuery(ChildrenFilterAsWritten(Some(1), None))) == []
            && Select(rows, CreateQuery(ChildrenFilter(Some(1), Some(s), None)))
               == [HeadRow(b, Int(n), Some(s), Some(1), None, now, 2)]
  {
    var v := Arr([Entry(b, Int(n))]);
    SavedRows(Store(true, [], 1), k, v, Some(s), None, None, now);
    assert [] + Layout(k, v, Some(s), None, None, now, 1) == Layout(k, v, Some(s), None, None, now, 1);
    ScopedLayoutUnseen(k, v, s, now);
    ScopedLayoutSeen(k, b, n, s, now);
  }

  /** As the source writes it, `getData(k, s)` right after `saveData(k, v, s)`
    * into an empty table returns an empty array for every array `v`: the
    * lookup finds the array's node, and `getChildren` none of its entries. */
  lemma ScopedDataLost(k: string, es: seq<Entry>, s: string, now: int, fuel: nat)
    requires Truthy(Some(k)) && Truthy(Some(s)) && KeyFree(k, Arr(es))
    ensures var rows := SaveDataSpec(Store(true, [], 1), k, Arr(es), Some(s), None, None, now).1.rows;
            Denormalize(FetchSpecAsWritten(rows, DataFilter(k, Some(s), None, None), fuel)) == Arr([])
  {
    var l := Layout(k, Arr(es), Some(s), None, None, now, 1);
    SavedRows(Store(true, [], 1), k, Arr(es), Some(s), None, None, now);
    assert [] + l == l;
    ScopedLayoutLost(k, es, s, now, fuel);
  }

  /** The same, on the rows `saveData` writes. */
  lemma ScopedLayoutLost(k: string, es: seq<Entry>, s: string, now: int, fuel: nat)
    requires Truthy(Some(k)) && Truthy(Some(s)) && KeyFree(k, Arr(es))
    ensures Denormalize(FetchSpecAsWritten(Layout(k, Arr(es), Some(s), None, None, now, 1), DataFilter(k, Some(s), None, None), fuel)) == Arr([])
  {
    var l := Layout(k, Arr(es), Some(s), None, None, now, 1);
    var f := DataFilter(k, Some(s), None, None);
    ScopedHeadFound(k, es, s, now);
    ScopedNoChildren(k, es, s, now, fuel);
    var n := Loaded(FirstNode(l, CreateQuery(f)));
    assert FetchSpecAsWritten(l, f, fuel) == n.(children := []);
  }

  /** `getChildren` as written finds nothing under the array's node. */
  lemma ScopedNoChildren(k: string, es: seq<Entry>, s: string, now: int, fuel: nat)
    ensures FetchChildrenAsWritten(Layout(k, Arr(es), Some(s), None, None, now, 1), Some(1), true, Some(s), None, fuel) == []
  {
    ScopedLayoutUnseen(k, Arr(es), s, now);
  }

  /** The lookup `getData(k, s)` makes finds the array's node, id 1. */
  lemma ScopedHeadFound(k: string, es: seq<Entry>, s: string, now: int)
    requires Truthy(Some(k)) && Truthy(Some(s)) && KeyFree(k, Arr(es))
    ensures var n := Loaded(FirstNode(Layout(k, Arr(es), Some(s), None, None, now, 1), CreateQuery(DataFilter(k, Some(s), None, None))));
            n.id == Some(1) && TypeOf(n.typeName, n.value) == Some(TYPE_ARRAY)
  {
    var v := Arr(es);
    SelectData([], k, v, Some(s), None, None, now, 1);
    assert [] + Layout(k, v, Some(s), None, None, now, 1) == Layout(k, v, Some(s), None, None, now, 1);
    HeadLoaded(k, v, Some(s), None, None, now, 1);
  }

  /** An entry that reuses the key of its array shadows the array:
    * `getData(k)` right after `saveData(k, [k => n])` into an empty table,
    * with no parent, returns `n`, because the lookup by key without a parent
    * also sees the entry's row, which the grouping by key then keeps. */
  lemma NestedKeyShadows(k: string, n: int, now: int, fuel: nat)
    requires Truthy(Some(k))
    ensures var rows := SaveDataSpec(Store(true, [], 1), k, Arr([Entry(k, Int(n))]), None, None, None, now).1.rows;
            Denormalize(FetchSpec(rows, DataFilter(k, None, None, None), fuel)) == Int(n)
  {
    var v := Arr([Entry(k, Int(n))]);
    var h2 := HeadRow(k, Int(n), None, Some(1), None, now, 2);
    var rows := [HeadRow(k, v, None, None, None, now, 1), h2];
    ShadowRows(k, n, now);
    ShadowFound(k, n, now);
    var f := DataFilter(k, None, None, None);
    var e := Loaded(Hydrate(h2, AllColumns));
    HeadLoaded(k, Int(n), None, Some(1), None, now, 2);
    assert FirstNode(rows, CreateQuery(f)) == Hydrate(h2, AllColumns);
    var got := e.(children := FetchChildren(rows, Some(2), true, None, None, fuel));
    assert FetchesChildren(f.fetchMethod);
    assert FetchSpec(rows, f, fuel) == FetchRow(rows, CreateQuery(f), true, None, None, fuel);
    assert FetchRow(rows, CreateQuery(f), true, None, None, fuel) == Assemble(rows, e, true, None, None, fuel);
    assert FetchSpec(rows, f, fuel) == got;
    assert TypeOf(got.typeName, got.value) == TypeOf(e.typeName, e.value);
  }

  /** The rows `saveData(k, [k => n])` writes into an empty table. */
  lemma ShadowRows(k: string, n: int, now: int)
    ensures SaveDataSpec(Store(true, [], 1), k, Arr([Entry(k, Int(n))]), None, None, None, now).1.rows
            == [HeadRow(k, Arr([Entry(k, Int(n))]), None, None, None, now, 1), HeadRow(k, Int(n), None, Some(1), None, now, 2)]
  {
    var v := Arr([Entry(k, Int(n))]);
    SavedRows(Store(true, [], 1), k, v, None, None, None, now);
    assert LayoutOf([Entry(k, Int(n))], None, Some(1), None, now, 2)
           == [HeadRow(k, Int(n), None, Some(1), None, now, 2)] + LayoutOf([], None, Some(1), None, now, 3);
  }

  /** The lookup by key `k` without a parent keeps the entry's row. */
  lemma ShadowFound(k: string, n: int, now: int)
    requires Truthy(Some(k))
    ensures var h2 := HeadRow(k, Int(n), None, Some(1), None, now, 2);
            Select([HeadRow(k, Arr([Entry(k, Int(n))]), None, None, None, now, 1), h2], CreateQuery(DataFilter(k, None, None, None))) == [h2]
  {
    var h1 := HeadRow(k, Arr([Entry(k, Int(n))]), None, None, None, now, 1);
    var h2 := HeadRow(k, Int(n), None, Some(1), None, now, 2);
    var q := CreateQuery(DataFilter(k, None, None, None));
    ShadowWhere(k, h1, h2);
    NewestOneKey([h1, h2]);
    assert q.limit.None?;
    SelectNewest([h1, h2], q, [h1, h2], h2);
  }

  /** A query without limit whose WHERE keeps rows of which one is newest
    * returns that row. */
  lemma SelectNewest(rows: seq<Row>, q: Query, w: seq<Row>, r: Row)
    requires Where(rows, q.where) == w && Newest(w) == [r] && q.limit.None?
    ensures Select(rows, q) == [r]
  {
    SelectOne(r);
  }

  /** Both rows answer the lookup by key `k` without a parent. */
  lemma ShadowWhere(k: string, h1: Row, h2: Row)
    requires Truthy(Some(k)) && h1.fields.key == Some(k) && h2.fields.key == Some(k)
    requires h1.fields.scope.None? && h2.fields.scope.None?
    ensures Where([h1, h2], CreateQuery(DataFilter(k, None, None, None)).where) == [h1, h2]
  {
    var conds := CreateQuery(DataFilter(k, None, None, None)).where;
    DataMatch(k, None, None, None, h1);
    DataMatch(k, None, None, None, h2);
    WhereSingle(h1, conds);
    WhereSingle(h2, conds);
    WhereAppend([h1], [h2], conds);
    assert [h1] + [h2] == [h1, h2];
  }

  /** None of the rows of a value saved in scope `s` answers the children
    * query as the source builds it. */
  lemma ScopedLayoutUnseen(k: string, v: Value, s: string, now: int)
    ensures Select(Layout(k, v, Some(s), None, None, now, 1), CreateQuery(ChildrenFilterAsWritten(Some(1), None))) == []
  {
    LayoutShape(k, v, Some(s), None, None, now, 1);
    ChildrenAsWrittenMisses(Layout(k, v, Some(s), None, None, now, 1), Some(1), None);
  }

  /** The children query that keeps scope `s` finds the one entry's row. */
  lemma ScopedLayoutSeen(k: string, b: string, n: int, s: string, now: int)
    requires Truthy(Some(s))
    ensures Select(Layout(k, Arr([Entry(b, Int(n))]), Some(s), None, None, now, 1), CreateQuery(ChildrenFilter(Some(1), Some(s), None)))
            == [HeadRow(b, Int(n), Some(s), Some(1), None, now, 2)]
  {
    var v := Arr([Entry(b, Int(n))]);
    var h := HeadRow(k, v, Some(s), None, None, now, 1);
    var es := v.entries;
    assert Layout(k, v, Some(s), None, None, now, 1) == [h] + LayoutOf(es, Some(s), Some(1), None, now, 2) + [];
    assert Apart([h], [], 1);
    SelectChildren([h], LayoutOf(es, Some(s), Some(1), None, now, 2), [], Heads(es, Some(s), Some(1), None, now, 2),
                   es, Some(s), None, now, 1);
    HeadsCons(es, Some(s), Some(1), None, now, 2);
  }
}

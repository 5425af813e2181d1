/**
 * The storage engine (class HKVStorage) over the in-memory table: what
 * `save`, `saveData`, `get`, `getChildren` and `denormalize` compute, as
 * functions of the table's rows, and the class whose methods do it step
 * by step.
 */
module Storage {
  import opened Wrappers
  import opened PhpValues
  import opened Table
  import opened Entity
  import opened SearchFilter
  import opened Query

  // ---------------------------------------------------------------------
  // save

  /** The date `save` stamps: the given time when it is truthy, else the clock. */
  function StampTime(time: Option<int>, now: int): int
  {
    if time.Some? && time.value != 0 then time.value else now
  }

  /** The row `save` writes for `n` under parent `pid` at `time`: the type as
    * `getType` derives it, the value encoded when the node is an array or an
    * object and is either stored already or holds a value, no children. */
  function RowOf(n: Node, pid: Option<int>, time: int): Fields
  {
    var t := TypeOf(n.typeName, n.value);
    var encode := (IsArrayType(t) || IsObjectType(t)) && (n.id.Some? || n.value != Null);
    Fields(pid, n.key, t, if encode then Encode(n.value) else n.value, n.scope, time, n.userId)
  }

  /** `save` on the tree `n` whose parent id has been set to `pid`: the tree
    * afterwards and the table afterwards. */
  function SaveTree(st: Store, n: Node, pid: Option<int>, time: int): (Node, Store)
    decreases n, 1
  {
    var f := RowOf(n, pid, time);
    var (id, st1) := WriteSpec(st, n, f);
    var (cs, st2) := SaveList(st1, n.children, id, time);
    (n.(id := id, parentId := pid, typeName := f.typeName, children := cs), st2)
  }

  /** `save` reads the parent id it was given, not the one the node held. */
  lemma SaveTreeParent(st: Store, n: Node, pid: Option<int>, time: int)
    ensures SaveTree(st, n.(parentId := pid), pid, time) == SaveTree(st, n, pid, time)
  {
  }

  /** The loop over the children: each gets parent id `pid` and is saved. */
  function SaveList(st: Store, cs: seq<Node>, pid: Option<int>, time: int): (r: (seq<Node>, Store))
    ensures |r.0| == |cs|
    decreases cs, 0
  {
    if cs == [] then ([], st)
    else
      var (c, st1) := SaveTree(st, cs[0], pid, time);
      var (rest, st2) := SaveList(st1, cs[1..], pid, time);
      ([c] + rest, st2)
  }

  /** The insert or update `save` does for `n` with the row `f`: the id
    * the node has afterwards and the table. */
  function WriteSpec(st: Store, n: Node, f: Fields): (Option<int>, Store)
  {
    if n.id.None? then InsertSpec(st, f) else (n.id, UpdateSpec(st, f, n.id.value))
  }

  /** Saving one more child after `ts`: the loop of `save` over the
    * children, as a relation between its iterations. */
  lemma {:induction false} SaveListSnoc(st0: Store, ts: seq<Node>, t: Node, pid: Option<int>, time: int)
    ensures var (done, st) := SaveList(st0, ts, pid, time);
            var (c, st1) := SaveTree(st, t, pid, time);
            SaveList(st0, ts + [t], pid, time) == (done + [c], st1)
    decreases |ts|
  {
    if ts == [] {
      assert ts + [t] == [t] && [t][1..] == [];
      var (c, st1) := SaveTree(st0, t, pid, time);
      assert [c] + [] == [] + [c];
    } else {
      var (c0, st1) := SaveTree(st0, ts[0], pid, time);
      assert (ts + [t])[0] == ts[0] && (ts + [t])[1..] == ts[1..] + [t];
      SaveListSnoc(st1, ts[1..], t, pid, time);
      var (rest, st2) := SaveList(st1, ts[1..], pid, time);
      var (c, st3) := SaveTree(st2, t, pid, time);
      assert [c0] + (rest + [c]) == ([c0] + rest) + [c];
    }
  }

  /** `SaveListSnoc` for a prefix of the children. */
  lemma SavePrefixStep(st0: Store, ts: seq<Node>, i: nat, pid: Option<int>, time: int,
                       done: seq<Node>, st: Store, c: Node, st1: Store)
    requires i < |ts| && SaveList(st0, ts[..i], pid, time) == (done, st)
    requires SaveTree(st, ts[i], pid, time) == (c, st1)
    ensures SaveList(st0, ts[..i + 1], pid, time) == (done + [c], st1)
  {
    SaveListSnoc(st0, ts[..i], ts[i], pid, time);
    assert ts[..i] + [ts[i]] == ts[..i + 1];
  }

  /** Every child's parent id is its parent's id, at every depth. */
  predicate Stamped(n: Node)
  {
    forall i :: 0 <= i < |n.children| ==> n.children[i].parentId == n.id && Stamped(n.children[i])
  }

  /** Every node of the tree has an id. */
  predicate AllIds(n: Node)
  {
    n.id.Some? && forall i :: 0 <= i < |n.children| ==> AllIds(n.children[i])
  }

  /** The table after a save at `time` compared with the one before: the same
    * table, rows only added after the old ones, old rows keep their place and
    * id, and every added or rewritten row carries the date `time`. */
  predicate Restamped(st: Store, st': Store, time: int)
  {
    && st'.hasTable == st.hasTable
    && st.nextId <= st'.nextId
    && |st.rows| <= |st'.rows|
    && (forall i :: 0 <= i < |st.rows| ==> st'.rows[i].id == st.rows[i].id)
    && (forall i :: 0 <= i < |st'.rows| ==>
          (i >= |st.rows| || st'.rows[i] != st.rows[i]) ==> Date(st'.rows[i]) == time)
  }

  lemma RestampedTrans(st1: Store, st2: Store, st3: Store, time: int)
    requires Restamped(st1, st2, time) && Restamped(st2, st3, time)
    ensures Restamped(st1, st3, time)
  {
    forall i | 0 <= i < |st3.rows| && (i >= |st1.rows| || st3.rows[i] != st1.rows[i])
      ensures Date(st3.rows[i]) == time
    {
      if i < |st2.rows| && st3.rows[i] == st2.rows[i] {
        assert i >= |st1.rows| || st2.rows[i] != st1.rows[i];
      }
    }
  }

  /** One insert or update at `time` keeps the table valid and restamps it. */
  lemma WriteStep(st: Store, n: Node, pid: Option<int>, time: int)
    requires ValidStore(st)
    ensures var st1 := if n.id.None? then InsertSpec(st, RowOf(n, pid, time)).1 else UpdateSpec(st, RowOf(n, pid, time), n.id.value);
            ValidStore(st1) && Restamped(st, st1, time)
  {
    var f := RowOf(n, pid, time);
    if n.id.None? {
      InsertKeepsValid(st, f);
    } else {
      UpdateKeepsValid(st, f, n.id.value);
    }
  }

  /** `save` assigns ids only to new nodes: a node without an id gets the
    * id of the row inserted for it, a node with an id keeps it; the table
    * stays valid and every row it writes carries the one date `time`. */
  lemma {:induction false} SaveTreeWrites(st: Store, n: Node, pid: Option<int>, time: int)
    requires ValidStore(st)
    ensures ValidStore(SaveTree(st, n, pid, time).1) && Restamped(st, SaveTree(st, n, pid, time).1, time)
    ensures SaveTree(st, n, pid, time).0.id == if n.id.None? && st.hasTable then Some(st.nextId) else n.id
    decreases n, 1
  {
    var f := RowOf(n, pid, time);
    var (id, st1) := WriteSpec(st, n, f);
    WriteStep(st, n, pid, time);
    SaveListWrites(st1, n.children, id, time);
    RestampedTrans(st, st1, SaveList(st1, n.children, id, time).1, time);
  }

  lemma {:induction false} SaveListWrites(st: Store, cs: seq<Node>, pid: Option<int>, time: int)
    requires ValidStore(st)
    ensures ValidStore(SaveList(st, cs, pid, time).1) && Restamped(st, SaveList(st, cs, pid, time).1, time)
    decreases cs, 0
  {
    if cs != [] {
      var (c, st1) := SaveTree(st, cs[0], pid, time);
      SaveTreeWrites(st, cs[0], pid, time);
      SaveListWrites(st1, cs[1..], pid, time);
      RestampedTrans(st, st1, SaveList(st1, cs[1..], pid, time).1, time);
    }
  }

  /** After `save`, every child's parent id equals its parent's id at every
    * depth, and with a table every node has an id. */
  lemma {:induction false} SaveTreeStamps(st: Store, n: Node, pid: Option<int>, time: int)
    requires ValidStore(st)
    ensures Stamped(SaveTree(st, n, pid, time).0)
    ensures st.hasTable ==> AllIds(SaveTree(st, n, pid, time).0)
    decreases n, 1
  {
    var f := RowOf(n, pid, time);
    var (id, st1) := WriteSpec(st, n, f);
    WriteStep(st, n, pid, time);
    SaveTreeWrites(st, n, pid, time);
    SaveListStamps(st1, n.children, id, time);
  }

  lemma {:induction false} SaveListStamps(st: Store, cs: seq<Node>, pid: Option<int>, time: int)
    requires ValidStore(st)
    ensures forall i :: 0 <= i < |cs| ==> SaveList(st, cs, pid, time).0[i].parentId == pid
    ensures forall i :: 0 <= i < |cs| ==> Stamped(SaveList(st, cs, pid, time).0[i])
    ensures st.hasTable && pid.Some? ==> forall i :: 0 <= i < |cs| ==> AllIds(SaveList(st, cs, pid, time).0[i])
    decreases cs, 0
  {
    if cs != [] {
      var (c, st1) := SaveTree(st, cs[0], pid, time);
      SaveTreeStamps(st, cs[0], pid, time);
      SaveTreeWrites(st, cs[0], pid, time);
      SaveListStamps(st1, cs[1..], pid, time);
      var r := SaveList(st, cs, pid, time).0;
      assert r == [c] + SaveList(st1, cs[1..], pid, time).0;
    }
  }

  /** `getType` gives the same answer once its result is stored. */
  lemma TypeOfStable(t: Option<string>, v: Value)
    ensures TypeOf(TypeOf(t, v), v) == TypeOf(t, v)
  {
  }

  /** The types `toArray` caches on the whole tree before the save do not
    * change what the save writes or returns. */
  lemma {:induction false} SaveTreeCached(st: Store, n: Node, pid: Option<int>, time: int)
    ensures SaveTree(st, CacheTypes(n), pid, time) == SaveTree(st, n, pid, time)
    decreases n, 1
  {
    TypeOfStable(n.typeName, n.value);
    var f := RowOf(n, pid, time);
    assert RowOf(CacheTypes(n), pid, time) == f;
    var (id, st1) := WriteSpec(st, n, f);
    SaveListCached(st1, n.children, id, time);
  }

  lemma {:induction false} SaveListCached(st: Store, cs: seq<Node>, pid: Option<int>, time: int)
    ensures SaveList(st, CacheList(cs), pid, time) == SaveList(st, cs, pid, time)
    decreases cs, 0
  {
    if cs != [] {
      SaveTreeCached(st, cs[0], pid, time);
      var st1 := SaveTree(st, cs[0], pid, time).1;
      assert CacheList(cs)[1..] == CacheList(cs[1..]);
      SaveListCached(st1, cs[1..], pid, time);
    }
  }

  /** The steps of `save` put together: `toArray` caches the types, the row
    * is written, then the children are saved under the node's id. */
  lemma SaveStep(st0: Store, n0: Node, data: Node, t: int, id: Option<int>, st1: Store, cs: seq<Node>, st2: Store)
    requires data == CacheTypes(n0)
    requires (id, st1) == WriteSpec(st0, data, RowOf(data, data.parentId, t))
    requires (cs, st2) == SaveList(st1, data.children, id, t)
    ensures SaveTree(st0, n0, n0.parentId, t) == (data.(id := id, children := cs), st2)
  {
    SaveTreeCached(st0, n0, n0.parentId, t);
    TypeOfStable(n0.typeName, n0.value);
  }

  // ---------------------------------------------------------------------
  // saveData

  /** The type `saveData` gives a value: the class name of an object,
    * `gettype` of anything else. */
  function TypeTag(v: Value): string
  {
    if v.Obj? then v.className else GetTypeName(v)
  }

  /** The node `saveData` builds before saving it: no id, the value unless
    * it is an array, and no children yet. */
  function DataNode(key: string, v: Value, scope: Option<string>, pid: Option<int>, userId: Option<string>): Node
  {
    Node(None, pid, Some(key), Some(TypeTag(v)), if v.Arr? then Null else v, [], scope, None, userId)
  }

  /** `saveData`: the node is saved, then each entry of an array is saved
    * under it, in order, and the saved entries become its children. */
  function SaveDataSpec(st: Store, key: string, v: Value, scope: Option<string>, pid: Option<int>,
                        userId: Option<string>, time: int): (Node, Store)
    decreases v, 1
  {
    var (h, st1) := SaveTree(st, DataNode(key, v, scope, pid, userId), pid, time);
    if v.Arr? then
      var (cs, st2) := SaveEntries(st1, v.entries, scope, h.id, userId, time);
      (h.(children := cs), st2)
    else (h, st1)
  }

  function SaveEntries(st: Store, es: seq<Entry>, scope: Option<string>, pid: Option<int>,
                       userId: Option<string>, time: int): (r: (seq<Node>, Store))
    ensures |r.0| == |es|
    decreases es, 0
  {
    if es == [] then ([], st)
    else
      var (c, st1) := SaveDataSpec(st, es[0].key, es[0].val, scope, pid, userId, time);
      var (rest, st2) := SaveEntries(st1, es[1..], scope, pid, userId, time);
      ([c] + rest, st2)
  }

  /** Saving one more entry after `es`: the loop of `saveData` over the
    * entries, as a relation between its iterations. */
  lemma {:induction false} SaveEntriesSnoc(st0: Store, es: seq<Entry>, e: Entry, scope: Option<string>,
                                           pid: Option<int>, userId: Option<string>, time: int)
    ensures var (done, st) := SaveEntries(st0, es, scope, pid, userId, time);
            var (c, st1) := SaveDataSpec(st, e.key, e.val, scope, pid, userId, time);
            SaveEntries(st0, es + [e], scope, pid, userId, time) == (done + [c], st1)
    decreases |es|
  {
    if es == [] {
      assert es + [e] == [e] && [e][1..] == [];
      var (c, st1) := SaveDataSpec(st0, e.key, e.val, scope, pid, userId, time);
      assert [c] + [] == [] + [c];
    } else {
      var (c0, st1) := SaveDataSpec(st0, es[0].key, es[0].val, scope, pid, userId, time);
      assert (es + [e])[0] == es[0] && (es + [e])[1..] == es[1..] + [e];
      SaveEntriesSnoc(st1, es[1..], e, scope, pid, userId, time);
      var (rest, st2) := SaveEntries(st1, es[1..], scope, pid, userId, time);
      var (c, st3) := SaveDataSpec(st2, e.key, e.val, scope, pid, userId, time);
      assert [c0] + (rest + [c]) == ([c0] + rest) + [c];
    }
  }

  /** `SaveEntriesSnoc` for a prefix of the entries. */
  lemma SaveEntriesStep(st0: Store, es: seq<Entry>, i: nat, scope: Option<string>, pid: Option<int>,
                        userId: Option<string>, time: int, done: seq<Node>, st: Store, c: Node, st1: Store)
    requires i < |es| && SaveEntries(st0, es[..i], scope, pid, userId, time) == (done, st)
    requires SaveDataSpec(st, es[i].key, es[i].val, scope, pid, userId, time) == (c, st1)
    ensures SaveEntries(st0, es[..i + 1], scope, pid, userId, time) == (done + [c], st1)
  {
    SaveEntriesSnoc(st0, es[..i], es[i], scope, pid, userId, time);
    assert es[..i] + [es[i]] == es[..i + 1];
  }

  // ---------------------------------------------------------------------
  // get, getChildren, getById

  predicate Projects(p: Projection, name: string)
  {
    p.AllColumns? || name in p.names
  }

  /** `new HKV($row)`: the node whose fields are the row's projected columns. */
  function Hydrate(r: Row, p: Projection): Node
  {
    Node(if Projects(p, "id") then Some(r.id) else None,
         if Projects(p, "parentId") then r.fields.parentId else None,
         if Projects(p, "key") then r.fields.key else None,
         if Projects(p, "type") then r.fields.typeName else None,
         if Projects(p, "value") then r.fields.value else Null,
         [],
         if Projects(p, "scope") then r.fields.scope else None,
         if Projects(p, "creationDate") then Some(r.fields.creationDate) else None,
         if Projects(p, "userId") then r.fields.userId else None)
  }

  /** What `get` does to the fetched node: the type derived and cached, the
    * value decoded when the node is an array or an object. */
  function Loaded(n: Node): Node
  {
    var t := TypeOf(n.typeName, n.value);
    n.(typeName := t, value := if IsArrayType(t) || IsObjectType(t) then Decode(n.value) else n.value)
  }

  /** The filter `getById` builds. */
  function ByIdFilter(id: int, withChildren: bool, scope: Option<string>, userId: Option<string>): FilterView
  {
    DefaultView.(id := Some(id), scope := scope, userId := userId,
                 fetchMethod := if withChildren then FETCH_ONE_AND_CHILDREN else FETCH_ONE_WITHOUT_CHILDREN)
  }

  /** The filter `getChildren` builds, as written: it does not carry the
    * scope, so the query always asks for rows without one. */
  function ChildrenFilterAsWritten(pid: Option<int>, userId: Option<string>): FilterView
  {
    ChildrenFilter(pid, None, userId)
  }

  /** The filter `getChildren` is meant to build: the default filter with
    * the parent, the owner, the scope of the parent's lookup, and only the
    * id column. */
  function ChildrenFilter(pid: Option<int>, scope: Option<string>, userId: Option<string>): FilterView
  {
    FilterView(None, None, pid, scope, userId, None, Null, Some([ID_FIELD]), FETCH_ONE_AND_CHILDREN, None)
  }

  /** The filter `getData` builds. */
  function DataFilter(key: string, scope: Option<string>, pid: Option<int>, userId: Option<string>): FilterView
  {
    DefaultView.(key := Some(key), parentId := pid, scope := scope, userId := userId)
  }

  /** `get` on a table holding `rows`: the first row the query returns (an
    * empty node when there is none), loaded, with its children fetched when
    * the fetch mode asks for them. `fuel` bounds the depth of the recursion. */
  function FetchSpec(rows: seq<Row>, f: FilterView, fuel: nat): Node
    decreases fuel, 4
  {
    FetchRow(rows, CreateQuery(f), FetchesChildren(f.fetchMethod), f.scope, f.userId, fuel)
  }

  /** `fetchRow` on the filter's query, then the node made of that row. */
  function FetchRow(rows: seq<Row>, q: Query, withChildren: bool,
                    scope: Option<string>, userId: Option<string>, fuel: nat): Node
    decreases fuel, 3
  {
    Assemble(rows, Loaded(FirstNode(rows, q)), withChildren, scope, userId, fuel)
  }

  /** The node hydrated from the first row the query returns; an empty
    * node when it returns none. */
  function FirstNode(rows: seq<Row>, q: Query): Node
  {
    var sel := Select(rows, q);
    if sel == [] then EmptyNode else Hydrate(sel[0], q.projection)
  }

  /** The loaded node `n`, with its children fetched when asked for. */
  function Assemble(rows: seq<Row>, n: Node, withChildren: bool,
                    scope: Option<string>, userId: Option<string>, fuel: nat): Node
    decreases fuel, 2
  {
    if withChildren then n.(children := FetchChildren(rows, n.id, true, scope, userId, fuel)) else n
  }

  /** `getChildren`: the rows whose parent is `pid`, each fetched by id. */
  function FetchChildren(rows: seq<Row>, pid: Option<int>, withChildren: bool,
                         scope: Option<string>, userId: Option<string>, fuel: nat): seq<Node>
    decreases fuel, 1
  {
    if fuel == 0 then []
    else FetchEach(rows, Select(rows, CreateQuery(ChildrenFilter(pid, scope, userId))), withChildren, scope, userId, fuel)
  }

  /** `getById` on each of the found rows, in order. */
  function FetchEach(rows: seq<Row>, found: seq<Row>, withChildren: bool,
                     scope: Option<string>, userId: Option<string>, fuel: nat): seq<Node>
    requires fuel > 0
    decreases fuel, 0
  {
    seq(|found|, k requires 0 <= k < |found| =>
      FetchById(rows, found[k].id, withChildren, scope, userId, fuel - 1))
  }

  /** `getById`: the node with id `id`, fetched with the filter it builds. */
  function FetchById(rows: seq<Row>, id: int, withChildren: bool,
                     scope: Option<string>, userId: Option<string>, fuel: nat): Node
    decreases fuel, 5
  {
    FetchSpec(rows, ByIdFilter(id, withChildren, scope, userId), fuel)
  }

  /** `get` as the source writes it: the same first row, loaded, with its
    * children fetched by `getChildren` as written. */
  function FetchSpecAsWritten(rows: seq<Row>, f: FilterView, fuel: nat): Node
    decreases fuel, 2
  {
    var n := Loaded(FirstNode(rows, CreateQuery(f)));
    if FetchesChildren(f.fetchMethod)
    then n.(children := FetchChildrenAsWritten(rows, n.id, true, f.scope, f.userId, fuel))
    else n
  }

  /** `getChildren` as the source writes it: the children query leaves the
    * scope out (`ChildrenFilterAsWritten`), and the scope reaches only the
    * `getById` made for each row found. */
  function FetchChildrenAsWritten(rows: seq<Row>, pid: Option<int>, withChildren: bool,
                                  scope: Option<string>, userId: Option<string>, fuel: nat): seq<Node>
    decreases fuel, 1
  {
    if fuel == 0 then []
    else FetchEachAsWritten(rows, Select(rows, CreateQuery(ChildrenFilterAsWritten(pid, userId))), withChildren, scope, userId, fuel)
  }

  /** `getById` as written on each of the found rows, in order. */
  function FetchEachAsWritten(rows: seq<Row>, found: seq<Row>, withChildren: bool,
                              scope: Option<string>, userId: Option<string>, fuel: nat): seq<Node>
    requires fuel > 0
    decreases fuel, 0
  {
    seq(|found|, k requires 0 <= k < |found| =>
      FetchByIdAsWritten(rows, found[k].id, withChildren, scope, userId, fuel - 1))
  }

  /** `getById` as written: `get` as written with the filter it builds. */
  function FetchByIdAsWritten(rows: seq<Row>, id: int, withChildren: bool,
                              scope: Option<string>, userId: Option<string>, fuel: nat): Node
    decreases fuel, 3
  {
    FetchSpecAsWritten(rows, ByIdFilter(id, withChildren, scope, userId), fuel)
  }

  /** Without a scope the two programs agree: `get` as written fetches the
    * same node as `get` with the scope-carrying children lookup. */
  lemma {:induction false} AsWrittenUnscoped(rows: seq<Row>, f: FilterView, fuel: nat)
    requires f.scope.None?
    ensures FetchSpecAsWritten(rows, f, fuel) == FetchSpec(rows, f, fuel)
    decreases fuel, 3
  {
    var n := Loaded(FirstNode(rows, CreateQuery(f)));
    assert FetchSpec(rows, f, fuel) == Assemble(rows, n, FetchesChildren(f.fetchMethod), f.scope, f.userId, fuel);
    ChildrenUnscopedAgree(rows, n.id, f.userId, fuel);
  }

  /** The children lookups of the two programs agree without a scope. */
  lemma {:induction false} ChildrenUnscopedAgree(rows: seq<Row>, pid: Option<int>, userId: Option<string>, fuel: nat)
    ensures FetchChildrenAsWritten(rows, pid, true, None, userId, fuel) == FetchChildren(rows, pid, true, None, userId, fuel)
    decreases fuel, 2
  {
    if fuel > 0 {
      assert ChildrenFilterAsWritten(pid, userId) == ChildrenFilter(pid, None, userId);
      EachUnscopedAgree(rows, Select(rows, CreateQuery(ChildrenFilter(pid, None, userId))), userId, fuel);
    }
  }

  /** The two programs fetch the same nodes for the same found rows. */
  lemma {:induction false} EachUnscopedAgree(rows: seq<Row>, found: seq<Row>, userId: Option<string>, fuel: nat)
    requires fuel > 0
    ensures FetchEachAsWritten(rows, found, true, None, userId, fuel) == FetchEach(rows, found, true, None, userId, fuel)
    decreases fuel, 1
  {
    var a := FetchEachAsWritten(rows, found, true, None, userId, fuel);
    var b := FetchEach(rows, found, true, None, userId, fuel);
    forall k | 0 <= k < |found| ensures a[k] == b[k] {
      EachAgreeAt(rows, found, userId, fuel, k);
    }
  }

  lemma {:induction false} EachAgreeAt(rows: seq<Row>, found: seq<Row>, userId: Option<string>, fuel: nat, k: nat)
    requires fuel > 0 && k < |found|
    ensures FetchEachAsWritten(rows, found, true, None, userId, fuel)[k] == FetchEach(rows, found, true, None, userId, fuel)[k]
    decreases fuel, 0
  {
    FetchEachAt(rows, found, true, None, userId, fuel, k);
    ByIdUnscopedAgree(rows, found[k].id, userId, fuel - 1);
  }

  /** `getById` without a scope fetches the same node in both programs. */
  lemma {:induction false} ByIdUnscopedAgree(rows: seq<Row>, id: int, userId: Option<string>, fuel: nat)
    ensures FetchByIdAsWritten(rows, id, true, None, userId, fuel) == FetchById(rows, id, true, None, userId, fuel)
    decreases fuel, 4
  {
    AsWrittenUnscoped(rows, ByIdFilter(id, true, None, userId), fuel);
  }

  lemma FetchEachAt(rows: seq<Row>, found: seq<Row>, withChildren: bool,
                    scope: Option<string>, userId: Option<string>, fuel: nat, i: nat)
    requires fuel > 0 && i < |found|
    ensures FetchEach(rows, found, withChildren, scope, userId, fuel)[i]
            == FetchById(rows, found[i].id, withChildren, scope, userId, fuel - 1)
  {
  }

  /** A lookup on an empty (or missing) table yields the empty node. */
  lemma FetchEmpty(f: FilterView, fuel: nat)
    ensures FetchSpec([], f, fuel) == EmptyNode
  {
    var q := CreateQuery(f);
    assert FirstNode([], q) == EmptyNode;
    assert TypeOf(None, Null) == None;
    assert Loaded(EmptyNode) == EmptyNode;
    if fuel > 0 {
      assert Select([], CreateQuery(ChildrenFilter(None, f.scope, f.userId))) == [];
      assert FetchChildren([], None, true, f.scope, f.userId, fuel) == [];
    }
    assert FetchSpec([], f, fuel) == Assemble([], EmptyNode, FetchesChildren(f.fetchMethod), f.scope, f.userId, fuel);
  }

  // ---------------------------------------------------------------------
  // denormalize

  /** PHP turns a null array key into "". */
  function KeyName(k: Option<string>): string
  {
    if k.Some? then k.value else ""
  }

  /** `denormalize`: an array node becomes the array of its children's
    * values keyed by their keys (array children recursively, the others by
    * their value); any other node becomes its value. */
  function Denormalize(n: Node): Value
    decreases n, 1
  {
    if TypeOf(n.typeName, n.value) == Some(TYPE_ARRAY) then Arr(DenormalizeChildren(n.children, []))
    else n.value
  }

  /** The loop of `denormalize`: `$result[key] = value` for each child. */
  function DenormalizeChildren(cs: seq<Node>, acc: seq<Entry>): seq<Entry>
    decreases cs, 0
  {
    if cs == [] then acc
    else
      var c := cs[0];
      var v := if TypeOf(c.typeName, c.value) == Some(TYPE_ARRAY) then Denormalize(c) else c.value;
      DenormalizeChildren(cs[1..], Put(acc, KeyName(c.key), v))
  }

  /** The array keys the children of a node turn into. */
  function ChildKeys(cs: seq<Node>): (ks: seq<string>)
    ensures |ks| == |cs| && forall i :: 0 <= i < |cs| ==> ks[i] == KeyName(cs[i].key)
  {
    seq(|cs|, i requires 0 <= i < |cs| => KeyName(cs[i].key))
  }

  /** `denormalize` makes an array node an array with exactly one entry per
    * key among its children, and any other node its value. */
  lemma DenormalizeShape(n: Node)
    ensures TypeOf(n.typeName, n.value) == Some(TYPE_ARRAY) ==>
              && Denormalize(n).Arr? && UniqueKeys(Denormalize(n).entries)
              && forall x :: x in Keys(Denormalize(n).entries) <==> x in ChildKeys(n.children)
    ensures TypeOf(n.typeName, n.value) != Some(TYPE_ARRAY) ==> Denormalize(n) == n.value
  {
    DenormalizeChildrenKeys(n.children, []);
    DenormalizeChildrenUnique(n.children, []);
  }

  /** The loop of `denormalize` adds exactly the children's keys. */
  lemma {:induction false} DenormalizeChildrenKeys(cs: seq<Node>, acc: seq<Entry>)
    ensures forall x :: x in Keys(DenormalizeChildren(cs, acc)) <==> x in Keys(acc) || x in ChildKeys(cs)
  {
    if cs != [] {
      var c := cs[0];
      var v := if TypeOf(c.typeName, c.value) == Some(TYPE_ARRAY) then Denormalize(c) else c.value;
      var acc' := Put(acc, KeyName(c.key), v);
      assert DenormalizeChildren(cs, acc) == DenormalizeChildren(cs[1..], acc');
      DenormalizeChildrenKeys(cs[1..], acc');
      ChildKeysCons(cs);
      PutStepKeys(acc, KeyName(c.key), v, DenormalizeChildren(cs[1..], acc'), ChildKeys(cs[1..]));
    }
  }

  lemma ChildKeysCons(cs: seq<Node>)
    requires cs != []
    ensures ChildKeys(cs) == [KeyName(cs[0].key)] + ChildKeys(cs[1..])
  {
  }

  /** One `$result[key] = value` step of that loop, on the keys. */
  lemma PutStepKeys(acc: seq<Entry>, key: string, v: Value, result: seq<Entry>, ks: seq<string>)
    requires forall x :: x in Keys(result) <==> x in Keys(Put(acc, key, v)) || x in ks
    ensures forall x :: x in Keys(result) <==> x in Keys(acc) || x in [key] + ks
  {
    PutKeys(acc, key, v);
  }

  /** The loop of `denormalize` adds each key once. */
  lemma {:induction false} DenormalizeChildrenUnique(cs: seq<Node>, acc: seq<Entry>)
    requires UniqueKeys(acc)
    ensures UniqueKeys(DenormalizeChildren(cs, acc))
  {
    if cs != [] {
      var c := cs[0];
      var v := if TypeOf(c.typeName, c.value) == Some(TYPE_ARRAY) then Denormalize(c) else c.value;
      PutUnique(acc, KeyName(c.key), v);
      DenormalizeChildrenUnique(cs[1..], Put(acc, KeyName(c.key), v));
    }
  }

  // ---------------------------------------------------------------------
  // setChildren on a list of HKV objects

  /** The list `getChildren` and `saveData` hand to `setChildren`. */
  function AsItems(cs: seq<HKV>): (items: seq<ChildItem>)
    ensures |items| == |cs| && forall i :: 0 <= i < |cs| ==> items[i] == NodeChild(cs[i])
  {
    seq(|cs|, i requires 0 <= i < |cs| => NodeChild(cs[i]))
  }

  lemma {:induction false} ConcatSingles(cs: seq<HKV>, rs: set<HKV>, self: HKV, n: nat)
    requires Forest(cs, rs) && self !in rs && n <= |cs| && ItemsValid(AsItems(cs), self)
    ensures Concat(ItemTrees(AsItems(cs), n, self)) == HKV.Trees(cs[..n], rs)
  {
    if n > 0 {
      ConcatSingles(cs, rs, self, n - 1);
      ItemTreesSnoc(cs, self, n);
      ConcatSnoc(ItemTrees(AsItems(cs), n - 1, self), [cs[n - 1].Tree()]);
      TreesPrefixSnoc(cs, rs, n);
    }
  }

  lemma ItemTreesSnoc(cs: seq<HKV>, self: HKV, n: nat)
    requires 0 < n <= |cs| && ItemsValid(AsItems(cs), self)
    ensures ItemTrees(AsItems(cs), n, self) == ItemTrees(AsItems(cs), n - 1, self) + [[cs[n - 1].Tree()]]
  {
    var items := AsItems(cs);
    assert ItemTree(items[n - 1]) == [cs[n - 1].Tree()];
  }

  lemma TreesPrefixSnoc(cs: seq<HKV>, rs: set<HKV>, n: nat)
    requires Forest(cs, rs) && 0 < n <= |cs|
    ensures HKV.Trees(cs[..n], rs) == HKV.Trees(cs[..n - 1], rs) + [cs[n - 1].Tree()]
  {
    assert cs[..n][..n - 1] == cs[..n - 1];
  }

  /** `setChildren` given only HKV objects keeps them all, in order. */
  lemma KeepsAllNodes(cs: seq<HKV>, rs: set<HKV>, self: HKV)
    requires Forest(cs, rs) && self !in rs
    ensures ItemsValid(AsItems(cs), self)
    ensures ItemsRepr(AsItems(cs)) <= rs
    ensures KeptTrees(AsItems(cs), self) == HKV.Trees(cs, rs)
  {
    var items := AsItems(cs);
    assert ItemsValid(items, self);
    ConcatSingles(cs, rs, self, |cs|);
    assert cs[..|cs|] == cs;
  }

  lemma SameNodes(a: seq<Node>, b: seq<Node>)
    requires |a| == |b| && forall k :: 0 <= k < |a| ==> a[k] == b[k]
    ensures a == b
  {
  }

  // ---------------------------------------------------------------------
  // The engine

  class HKVStorage {
    const db: Table
    const tableName: string

    ghost predicate Valid()
      reads db
    {
      db.Valid()
    }

    /** Opens the database `d`; when its file did not exist yet, the table
      * is created. */
    constructor (d: Table, tableName: string, emptyDatabase: bool)
      requires d.Valid()
      modifies d
      ensures Valid() && db == d && this.tableName == tableName
      ensures emptyDatabase ==> d.hasTable && d.State() == old(d.State()).(hasTable := true)
      ensures emptyDatabase && !old(d.hasTable) ==> d.columns == [ID_FIELD] + FieldNames
      ensures !emptyDatabase ==> d.State() == old(d.State()) && d.columns == old(d.columns)
    {
      db := d;
      this.tableName := tableName;
      new;
      if emptyDatabase {
        CreateDbStructure();
      }
    }

    /** `createDbStructure`: creates the table and adds its columns, in
      * order, unless the table exists already. */
    method CreateDbStructure()
      requires Valid()
      modifies db
      ensures Valid() && db.hasTable && db.State() == old(db.State()).(hasTable := true)
      ensures old(db.hasTable) ==> db.columns == old(db.columns)
      ensures !old(db.hasTable) ==> db.columns == [ID_FIELD] + FieldNames
    {
      var has := db.HasTable();
      if !has {
        db.CreateTable();
        var names := FieldNames;
        var i := 0;
        while i < |names|
          invariant 0 <= i <= |names| && db.Valid() && db.hasTable
          invariant db.State() == old(db.State()).(hasTable := true)
          invariant db.columns == [ID_FIELD] + names[..i]
        {
          db.AddColumn(names[i]);
          assert names[..i + 1] == names[..i] + [names[i]];
          i := i + 1;
        }
      }
    }

    /** `save`: writes the node's row (an insert when it has no id, which
      * gives it the new row's id; an update by id otherwise), then gives
      * each child the node's id as parent id and saves it with the same
      * time. Every node's type gets cached on the way. */
    method Save(h: HKV, time: Option<int>, now: int) returns (r: HKV)
      requires Valid() && h.Valid()
      modifies h.Repr, db
      ensures Valid() && r == h && h.Valid() && h.Repr == old(h.Repr) && db.columns == old(db.columns)
      ensures (h.Tree(), db.State()) == SaveTree(old(db.State()), old(h.Tree()), old(h.parentId), StampTime(time, now))
      decreases h.Repr, 1
    {
      ghost var st0 := db.State();
      ghost var n0 := h.Tree();
      var t := now;
      if time.Some? && time.value != 0 {
        t := time.value;
      }
      var data := WriteNode(h, t);
      ghost var st1 := db.State();
      ghost var n1 := h.Tree();
      SaveChildrenOf(h, t, now);
      SaveStep(st0, n0, data, t, n1.id, st1, h.Tree().children, db.State());
      r := h;
    }

    /** The head of `save`: `toArray` caches the types of the node and its
      * descendants, then the node's row is written. */
    method WriteNode(h: HKV, t: int) returns (data: Node)
      requires Valid() && h.Valid()
      modifies h.Repr, db
      ensures Valid() && h.Valid() && h.Repr == old(h.Repr) && db.columns == old(db.columns)
      ensures data == CacheTypes(old(h.Tree()))
      ensures (h.id, db.State()) == WriteSpec(old(db.State()), data, RowOf(data, data.parentId, t))
      ensures h.Tree() == data.(id := h.id)
    {
      data := h.ToArray();
      TypeOfStable(data.typeName, data.value);
      var _ := WriteRow(h, t);
    }

    /** The tail of `save`: when the node has children, each is saved with
      * the node's id as parent id. */
    method SaveChildrenOf(h: HKV, t: int, now: int)
      requires Valid() && h.Valid() && StampTime(Some(t), now) == t
      modifies h.Repr - {h}, db
      ensures Valid() && h.Valid() && h.Repr == old(h.Repr) && db.columns == old(db.columns)
      ensures (h.Tree().children, db.State()) == SaveList(old(db.State()), old(h.Tree()).children, h.id, t)
      ensures h.Tree() == old(h.Tree()).(children := h.Tree().children)
      decreases h.Repr, 0
    {
      if h.HasChildren() {
        SaveChildren(h.children, h.Repr - {h}, h.id, t, now);
      }
    }

    /** The write at the head of `save`, once `toArray` has cached the type:
      * the row is inserted (the object takes the new id) or updated by id. */
    method WriteRow(h: HKV, t: int) returns (f: Fields)
      requires Valid() && h.Valid() && TypeOf(h.typeName, h.value) == h.typeName
      modifies h`id, db
      ensures Valid() && h.Valid() && db.columns == old(db.columns)
      ensures f == RowOf(old(h.Tree()), old(h.parentId), t)
      ensures (h.id, db.State()) == WriteSpec(old(db.State()), old(h.Tree()), f)
      ensures h.Tree() == old(h.Tree()).(id := h.id)
    {
      f := RowFields(h, t);
      Write(h, f);
    }

    /** The row `save` writes for `h`: an array or object value is encoded,
      * except the null value of a node that has no id yet. */
    static method RowFields(h: HKV, t: int) returns (f: Fields)
      requires h.Valid() && TypeOf(h.typeName, h.value) == h.typeName
      ensures f == RowOf(h.Tree(), h.parentId, t)
    {
      var isNew := !h.HasId();
      var value := h.value;
      if (h.IsArray() || h.IsObject()) && (!isNew || value != Null) {
        value := Encode(value);
      }
      f := Fields(h.parentId, h.key, h.typeName, value, h.scope, t, h.userId);
    }

    /** The update by id, or the insert whose new id the object takes. */
    method Write(h: HKV, f: Fields)
      requires Valid() && h.Valid()
      modifies h`id, db
      ensures Valid() && h.Valid() && db.columns == old(db.columns)
      ensures (h.id, db.State()) == WriteSpec(old(db.State()), old(h.Tree()), f)
      ensures h.Tree() == old(h.Tree()).(id := h.id)
    {
      ghost var n := h.Tree();
      if h.HasId() {
        db.Update(f, h.id.value);
        assert h.Tree() == n;
      } else {
        var id := db.Insert(f);
        assert h.Tree() == n;
        if id.Some? {
          h.SetId(id);
        }
      }
    }

    /** The loop of `save` over the children of a node with id `pid`. */
    method SaveChildren(cs: seq<HKV>, ghost rs: set<HKV>, pid: Option<int>, t: int, now: int)
      requires Valid() && Forest(cs, rs) && StampTime(Some(t), now) == t
      modifies rs, db
      ensures Valid() && Forest(cs, rs) && db.columns == old(db.columns)
      ensures forall k :: 0 <= k < |cs| ==> cs[k].Repr == old(cs[k].Repr)
      ensures (HKV.Trees(cs, rs), db.State()) == SaveList(old(db.State()), old(HKV.Trees(cs, rs)), pid, t)
      decreases rs, 5
    {
      ghost var ts := HKV.Trees(cs, rs);
      ghost var st0 := db.State();
      ghost var done: seq<Node> := [];
      var i := 0;
      while i < |cs|
        invariant 0 <= i <= |cs| && Valid() && Forest(cs, rs) && db.columns == old(db.columns)
        invariant forall k :: 0 <= k < |cs| ==> cs[k].Repr == old(cs[k].Repr)
        invariant SavedUpTo(cs, rs, st0, ts, done, i, pid, t)
      {
        done := SaveNext(cs, rs, i, pid, t, now, st0, ts, done);
        i := i + 1;
      }
      SavedAll(cs, rs, st0, ts, done, pid, t);
    }

    /** The first `i` children hold the saved trees `done`, the rest
      * still hold the trees `ts` they had before the loop, and the table
      * is where saving the first `i` trees from `st0` leaves it. */
    ghost predicate SavedUpTo(cs: seq<HKV>, rs: set<HKV>, st0: Store, ts: seq<Node>, done: seq<Node>, i: nat,
                              pid: Option<int>, t: int)
      reads db, rs
      requires Forest(cs, rs)
    {
      |cs| == |ts| && i == |done| <= |cs| && SaveList(st0, ts[..i], pid, t) == (done, db.State())
      && (forall k :: 0 <= k < i ==> cs[k].Tree() == done[k])
      && (forall k :: i <= k < |cs| ==> cs[k].Tree() == ts[k])
    }

    /** Once every child is saved, the children hold `SaveList` of their old trees. */
    lemma SavedAll(cs: seq<HKV>, rs: set<HKV>, st0: Store, ts: seq<Node>, done: seq<Node>,
                   pid: Option<int>, t: int)
      requires Forest(cs, rs) && SavedUpTo(cs, rs, st0, ts, done, |cs|, pid, t)
      ensures (HKV.Trees(cs, rs), db.State()) == SaveList(st0, ts, pid, t)
    {
      assert ts[..|ts|] == ts;
      SameNodes(HKV.Trees(cs, rs), done);
    }

    /** The loop step of `SaveChildren`, stated on the saved prefix. */
    method SaveNext(cs: seq<HKV>, ghost rs: set<HKV>, i: nat, pid: Option<int>, t: int, now: int,
                    ghost st0: Store, ghost ts: seq<Node>, ghost done: seq<Node>)
      returns (ghost done': seq<Node>)
      requires Valid() && i < |cs| == |ts| && Forest(cs, rs) && StampTime(Some(t), now) == t
      requires SavedUpTo(cs, rs, st0, ts, done, i, pid, t)
      modifies rs, db
      ensures Valid() && Forest(cs, rs) && db.columns == old(db.columns)
      ensures forall k :: 0 <= k < |cs| ==> cs[k].Repr == old(cs[k].Repr)
      ensures SavedUpTo(cs, rs, st0, ts, done', i + 1, pid, t)
      decreases rs, 4
    {
      ghost var st := db.State();
      SaveChildAt(cs, rs, i, pid, t, now);
      done' := done + [cs[i].Tree()];
      SavePrefixStep(st0, ts, i, pid, t, done, st, cs[i].Tree(), db.State());
    }

    /** One step of that loop: child `i` gets its parent id and is saved;
      * the other children are untouched. */
    method SaveChildAt(cs: seq<HKV>, ghost rs: set<HKV>, i: nat, pid: Option<int>, t: int, now: int)
      requires Valid() && i < |cs| && Forest(cs, rs) && StampTime(Some(t), now) == t
      modifies rs, db
      ensures Valid() && Forest(cs, rs) && db.columns == old(db.columns)
      ensures forall k :: 0 <= k < |cs| ==> cs[k].Repr == old(cs[k].Repr)
      ensures (cs[i].Tree(), db.State()) == SaveTree(old(db.State()), old(cs[i].Tree()), pid, t)
      ensures forall k :: 0 <= k < |cs| && k != i ==> cs[k].Tree() == old(cs[k].Tree())
      decreases rs, 3
    {
      SaveUnder(cs[i], pid, t, now);
      forall k | 0 <= k < |cs| && k != i
        ensures cs[k].Repr == old(cs[k].Repr) && cs[k].Valid() && cs[k].Tree() == old(cs[k].Tree())
      {
        assert old(cs[k].Repr) !! old(cs[i].Repr);
        assert unchanged(old(cs[k].Repr));
      }
    }
    /** The body of that step for the child `h`: `setParentId`, then `save`
      * with the parent's time. */
    method SaveUnder(h: HKV, pid: Option<int>, t: int, now: int)
      requires Valid() && h.Valid() && StampTime(Some(t), now) == t
      modifies h.Repr, db
      ensures Valid() && h.Valid() && h.Repr == old(h.Repr) && db.columns == old(db.columns)
      ensures (h.Tree(), db.State()) == SaveTree(old(db.State()), old(h.Tree()), pid, t)
      decreases h.Repr, 2
    {
      ghost var n0 := h.Tree();
      h.SetParentId(pid);
      SaveTreeParent(db.State(), n0, pid, t);
      var _ := Save(h, Some(t), now);
    }

    /** `saveData`: builds a node for `key` (its type is `gettype` of the
      * value, or the class name of an object; an array keeps no value of
      * its own), saves it, then saves each entry of an array under it and
      * makes the saved entries its children. */
    method SaveData(key: string, v: Value, scope: Option<string>, pid: Option<int>, userId: Option<string>, now: int)
      returns (h: HKV)
      requires Valid()
      modifies db
      ensures Valid() && h.Valid() && fresh(h.Repr) && db.columns == old(db.columns)
      ensures (h.Tree(), db.State()) == SaveDataSpec(old(db.State()), key, v, scope, pid, userId, now)
      decreases v, 3
    {
      h := SaveDataNode(key, v, scope, pid, userId, now);
      if v.Arr? {
        SaveEntriesUnder(h, v, scope, userId, now);
      }
    }

    /** The second half of `saveData` for an array: its entries are saved
      * under the node `h` and become its children. */
    method SaveEntriesUnder(h: HKV, v: Value, scope: Option<string>, userId: Option<string>, now: int)
      requires Valid() && h.Valid() && v.Arr?
      modifies db, h
      ensures Valid() && h.Valid() && fresh(h.Repr - {h}) && db.columns == old(db.columns)
      ensures var (cs, st) := SaveEntries(old(db.State()), v.entries, scope, old(h.id), userId, now);
              h.Tree() == old(h.Tree()).(children := cs) && db.State() == st
      decreases v, 2
    {
      var cs, rs := SaveEntriesOf(v, scope, h.id, userId, now);
      Attach(h, cs, rs);
    }

    /** The first half of `saveData`: the node for `key` is built with the
      * setters and saved, without children. */
    method SaveDataNode(key: string, v: Value, scope: Option<string>, pid: Option<int>, userId: Option<string>, now: int)
      returns (h: HKV)
      requires Valid()
      modifies db
      ensures Valid() && h.Valid() && fresh(h.Repr) && db.columns == old(db.columns)
      ensures (h.Tree(), db.State()) == SaveTree(old(db.State()), DataNode(key, v, scope, pid, userId), pid, now)
    {
      h := NewDataNode(key, v, scope, pid, userId);
      var _ := Save(h, None, now);
    }

    /** The setters `saveData` calls on a new node, in their order. */
    static method NewDataNode(key: string, v: Value, scope: Option<string>, pid: Option<int>, userId: Option<string>)
      returns (h: HKV)
      ensures h.Valid() && fresh(h.Repr)
      ensures h.Tree() == DataNode(key, v, scope, pid, userId)
    {
      h := new HKV();
      var typ := GetTypeName(v);
      var isArray := v.Arr?;
      h.SetKey(Some(key));
      h.SetParentId(pid);
      h.SetScope(scope);
      h.SetType(Some(typ));
      h.SetUserId(userId);
      if !isArray {
        h.SetValue(v);
      }
      if typ == "object" {
        h.SetType(Some(v.className));
      }
    }

    /** The tail of `saveData` for an array and of `get`: the nodes `cs`
      * become the children of `h`. */
    static method Attach(h: HKV, cs: seq<HKV>, ghost rs: set<HKV>)
      requires h.Valid() && Forest(cs, rs) && h !in rs
      modifies h
      ensures h.Valid() && fresh(h.Repr - {h} - rs)
      ensures h.Tree() == old(h.Tree()).(children := old(HKV.Trees(cs, rs)))
    {
      KeepsAllNodes(cs, rs, h);
      h.SetChildren(AsItems(cs));
    }

    /** The loop of `saveData` over an array's entries, in order. */
    method SaveEntriesOf(v: Value, scope: Option<string>, pid: Option<int>, userId: Option<string>, now: int)
      returns (cs: seq<HKV>, ghost rs: set<HKV>)
      requires Valid() && v.Arr?
      modifies db
      ensures Valid() && fresh(rs) && Forest(cs, rs) && db.columns == old(db.columns)
      ensures (HKV.Trees(cs, rs), db.State()) == SaveEntries(old(db.State()), v.entries, scope, pid, userId, now)
      decreases v, 1
    {
      cs, rs := [], {};
      ghost var st0 := db.State();
      ghost var cols := db.columns;
      var es := v.entries;
      var i := 0;
      while i < |es|
        invariant 0 <= i <= |es| && EntriesSaved(cs, rs, st0, es, i, scope, pid, userId, now, cols)
        invariant fresh(rs)
      {
        cs, rs := SaveEntryAt(v, i, scope, pid, userId, now, cs, rs, st0, cols);
        i := i + 1;
      }
      EntriesSavedAll(cs, rs, st0, es, scope, pid, userId, now, cols);
    }

    /** One iteration of that loop: entry `i` is saved under `pid`. */
    method SaveEntryAt(v: Value, i: nat, scope: Option<string>, pid: Option<int>, userId: Option<string>, now: int,
                       cs: seq<HKV>, ghost rs: set<HKV>, ghost st0: Store, ghost cols: seq<string>)
      returns (cs': seq<HKV>, ghost rs': set<HKV>)
      requires v.Arr? && i < |v.entries| && EntriesSaved(cs, rs, st0, v.entries, i, scope, pid, userId, now, cols)
      modifies db
      ensures EntriesSaved(cs', rs', st0, v.entries, i + 1, scope, pid, userId, now, cols)
      ensures rs <= rs' && fresh(rs' - rs)
      decreases v, 0
    {
      var e := v.entries[i];
      ghost var st := db.State();
      var c := SaveData(e.key, e.val, scope, pid, userId, now);
      EntrySaved(cs, rs, st0, v.entries, i, scope, pid, userId, now, cols, st, c);
      cs', rs' := cs + [c], rs + c.Repr;
    }

    /** When the loop ends, its progress is `SaveEntries` of all entries. */
    lemma EntriesSavedAll(cs: seq<HKV>, rs: set<HKV>, st0: Store, es: seq<Entry>,
                          scope: Option<string>, pid: Option<int>, userId: Option<string>, now: int, cols: seq<string>)
      requires EntriesSaved(cs, rs, st0, es, |es|, scope, pid, userId, now, cols)
      ensures Valid() && db.columns == cols && Forest(cs, rs)
      ensures (HKV.Trees(cs, rs), db.State()) == SaveEntries(st0, es, scope, pid, userId, now)
    {
      assert es[..|es|] == es;
    }

    /** The trees of `cs` and the table are where the first `i` iterations
      * of the loop of `saveData` over the entries `es` leave them; the
      * table's columns stay `cols`. */
    ghost predicate EntriesSaved(cs: seq<HKV>, rs: set<HKV>, st0: Store, es: seq<Entry>, i: nat,
                                 scope: Option<string>, pid: Option<int>, userId: Option<string>, now: int,
                                 cols: seq<string>)
      reads db, rs
    {
      && Valid() && db.columns == cols && Forest(cs, rs) && i <= |es|
      && (HKV.Trees(cs, rs), db.State()) == SaveEntries(st0, es[..i], scope, pid, userId, now)
    }

    /** Appending the node that entry `i` was saved as extends the loop's
      * progress by one entry. */
    lemma EntrySaved(cs: seq<HKV>, rs: set<HKV>, st0: Store, es: seq<Entry>, i: nat,
                     scope: Option<string>, pid: Option<int>, userId: Option<string>, now: int,
                     cols: seq<string>, st: Store, c: HKV)
      requires Valid() && db.columns == cols && Forest(cs, rs) && i < |es| && c.Valid() && c.Repr !! rs
      requires (HKV.Trees(cs, rs), st) == SaveEntries(st0, es[..i], scope, pid, userId, now)
      requires (c.Tree(), db.State()) == SaveDataSpec(st, es[i].key, es[i].val, scope, pid, userId, now)
      ensures EntriesSaved(cs + [c], rs + c.Repr, st0, es, i + 1, scope, pid, userId, now, cols)
    {
      ForestSnoc(cs, c, rs);
      SaveEntriesStep(st0, es, i, scope, pid, userId, now, HKV.Trees(cs, rs), st, c.Tree(), db.State());
    }

    /** `get`: without the table an empty node; otherwise the first row the
      * filter's query returns, its type cached and its value decoded when it
      * is an array or an object, and its children fetched when the fetch
      * mode asks for them. `fuel` bounds the depth of the recursion. */
    method Get(filter: HKVSearchFilter, fuel: nat) returns (h: HKV)
      requires Valid()
      ensures h.Valid() && fresh(h.Repr)
      ensures h.Tree() == FetchSpec(db.rows, filter.View(), fuel)
      decreases fuel, 4
    {
      var has := db.HasTable();
      if !has {
        h := new HKV();
        FetchEmpty(filter.View(), fuel);
        return;
      }
      var q := CreateQuery(filter.View());
      h := LoadFirst(q);
      var withChildren := filter.ShouldFetchChildren();
      assert FetchSpec(db.rows, filter.View(), fuel)
          == Assemble(db.rows, h.Tree(), withChildren, filter.scope, filter.userId, fuel);
      if withChildren {
        LoadChildren(h, filter.scope, filter.userId, fuel);
      }
    }

    /** The middle of `get`: the first row the query returns made into a
      * node, its type cached and its value decoded when it is an array or
      * an object. */
    method LoadFirst(q: Query) returns (h: HKV)
      requires Valid()
      ensures h.Valid() && fresh(h.Repr)
      ensures h.Tree() == Loaded(FirstNode(db.rows, q))
    {
      var sel := Select(db.rows, q);
      if sel == [] {
        h := new HKV();
      } else {
        h := new HKV.Leaf(Hydrate(sel[0], q.projection));
      }
      var t := h.GetType();
      if IsArrayType(t) || IsObjectType(t) {
        h.SetValue(Decode(h.value));
      }
    }

    /** The tail of `get`: the node's children fetched, each with its own
      * children, and set on it. */
    method LoadChildren(h: HKV, scope: Option<string>, userId: Option<string>, fuel: nat)
      requires Valid() && h.Valid()
      modifies h
      ensures h.Valid() && fresh(h.Repr - {h})
      ensures h.Tree() == old(h.Tree()).(children := FetchChildren(db.rows, h.id, true, scope, userId, fuel))
      decreases fuel, 3
    {
      var cs, rs := GetChildren(h.id, true, scope, userId, fuel);
      Attach(h, cs, rs);
    }

    /** `getById`: `get` with a filter on the id, the scope and the user,
      * children included or not. */
    method GetById(id: int, withChildren: bool, scope: Option<string>, userId: Option<string>, fuel: nat)
      returns (h: HKV)
      requires Valid()
      ensures h.Valid() && fresh(h.Repr)
      ensures h.Tree() == FetchById(db.rows, id, withChildren, scope, userId, fuel)
      decreases fuel, 5
    {
      var filter := new HKVSearchFilter();
      filter.SetId(Some(id));
      filter.SetScope(scope);
      filter.SetUserId(userId);
      if withChildren {
        filter.SetFetchMethod(FETCH_ONE_AND_CHILDREN);
      } else {
        filter.SetFetchMethod(FETCH_ONE_WITHOUT_CHILDREN);
      }
      h := Get(filter, fuel);
    }

    /** `getChildren` of the node with id `pid`: the ids of the rows under
      * it, each fetched with `getById`. The filter carries the scope (see
      * `ChildrenFilterAsWritten` for the one the source builds). */
    method GetChildren(pid: Option<int>, withChildren: bool, scope: Option<string>, userId: Option<string>, fuel: nat)
      returns (cs: seq<HKV>, ghost rs: set<HKV>)
      requires Valid()
      ensures fresh(rs) && Forest(cs, rs)
      ensures HKV.Trees(cs, rs) == FetchChildren(db.rows, pid, withChildren, scope, userId, fuel)
      decreases fuel, 2
    {
      cs, rs := [], {};
      if fuel == 0 {
        return;
      }
      var filter := new HKVSearchFilter();
      filter.SetParentId(pid);
      filter.SetFields(Some([ID_FIELD]));
      filter.SetUserId(userId);
      filter.SetScope(scope);
      var found := Select(db.rows, CreateQuery(filter.View()));
      cs, rs := GetEach(found, withChildren, scope, userId, fuel);
    }

    /** The loop of `getChildren`: `getById` on each found row, in order. */
    method GetEach(found: seq<Row>, withChildren: bool, scope: Option<string>, userId: Option<string>, fuel: nat)
      returns (cs: seq<HKV>, ghost rs: set<HKV>)
      requires Valid() && fuel > 0
      ensures fresh(rs) && Forest(cs, rs)
      ensures HKV.Trees(cs, rs) == FetchEach(db.rows, found, withChildren, scope, userId, fuel)
      decreases fuel, 1
    {
      cs, rs := [], {};
      ghost var want := FetchEach(db.rows, found, withChildren, scope, userId, fuel);
      var i := 0;
      while i < |found|
        invariant 0 <= i <= |found| && Forest(cs, rs) && FetchedUpTo(cs, rs, want, i)
        invariant fresh(rs)
      {
        FetchEachAt(db.rows, found, withChildren, scope, userId, fuel, i);
        cs, rs := GetNext(found[i].id, withChildren, scope, userId, fuel - 1, cs, rs, want, i);
        i := i + 1;
      }
      SameNodes(HKV.Trees(cs, rs), want);
    }

    /** One iteration of that loop: the row with id `id` is fetched and
      * appended. */
    method GetNext(id: int, withChildren: bool, scope: Option<string>, userId: Option<string>, fuel: nat,
                   cs: seq<HKV>, ghost rs: set<HKV>, ghost want: seq<Node>, ghost i: nat)
      returns (cs': seq<HKV>, ghost rs': set<HKV>)
      requires Valid() && Forest(cs, rs) && FetchedUpTo(cs, rs, want, i) && i < |want|
      requires want[i] == FetchById(db.rows, id, withChildren, scope, userId, fuel)
      ensures Forest(cs', rs') && FetchedUpTo(cs', rs', want, i + 1)
      ensures rs <= rs' && fresh(rs' - rs)
      decreases fuel, 6
    {
      var c := GetById(id, withChildren, scope, userId, fuel);
      FetchedSnoc(cs, rs, want, i, c);
      cs', rs' := cs + [c], rs + c.Repr;
    }

    /** The trees of `cs` are the first `i` nodes of `want`. */
    ghost predicate FetchedUpTo(cs: seq<HKV>, rs: set<HKV>, want: seq<Node>, i: nat)
      reads rs
      requires Forest(cs, rs)
    {
      i == |cs| <= |want| && forall k :: 0 <= k < i ==> cs[k].Tree() == want[k]
    }

    lemma FetchedSnoc(cs: seq<HKV>, rs: set<HKV>, want: seq<Node>, i: nat, c: HKV)
      requires Forest(cs, rs) && FetchedUpTo(cs, rs, want, i) && i < |want|
      requires c.Valid() && c.Repr !! rs && c.Tree() == want[i]
      ensures Forest(cs + [c], rs + c.Repr) && FetchedUpTo(cs + [c], rs + c.Repr, want, i + 1)
    {
      ForestSnoc(cs, c, rs);
    }

    /** `getData`: the node with key `key` (in the scope, under the parent,
      * for the user) fetched with its children and denormalized. */
    method GetData(key: string, scope: Option<string>, pid: Option<int>, userId: Option<string>, fuel: nat)
      returns (v: Value)
      requires Valid()
      ensures v == Denormalize(FetchSpec(db.rows, DataFilter(key, scope, pid, userId), fuel))
    {
      var filter := new HKVSearchFilter();
      filter.SetKey(Some(key));
      filter.SetParentId(pid);
      filter.SetScope(scope);
      filter.SetUserId(userId);
      var h := Get(filter, fuel);
      v := Denormalize(h.Tree());
    }
  }
}

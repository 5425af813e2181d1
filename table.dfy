/**
 * The relational backend, reduced to what the storage engine needs: one
 * table of rows with an engine-assigned integer id, an insert that
 * appends a row under a fresh id, and an update addressed by id.
 */
module Table {
  import opened Wrappers
  import opened PhpValues

  /** The columns of the key-value table. */
  datatype Column = IdCol | ParentIdCol | KeyCol | TypeCol | ValueCol | ScopeCol | CreationDateCol | UserIdCol

  /** The names of the columns added after the primary key, in order. */
  const FieldNames: seq<string> := ["parentId", "key", "type", "value", "scope", "creationDate", "userId"]

  const ID_FIELD := "id"

  /** What an insert or an update writes: every column except `id`. */
  datatype Fields = Fields(
    parentId: Option<int>,
    key: Option<string>,
    typeName: Option<string>,
    value: Value,
    scope: Option<string>,
    creationDate: int,
    userId: Option<string>)

  datatype Row = Row(id: int, fields: Fields)

  /** The whole backend state; `nextId` is the id the next insert receives. */
  datatype Store = Store(hasTable: bool, rows: seq<Row>, nextId: int)

  predicate UniqueIds(rows: seq<Row>)
  {
    forall i, j :: 0 <= i < j < |rows| ==> rows[i].id != rows[j].id
  }

  /** Ids are unique, positive and below `nextId`; a missing table holds no rows. */
  predicate ValidStore(st: Store)
  {
    && 1 <= st.nextId
    && UniqueIds(st.rows)
    && (forall i :: 0 <= i < |st.rows| ==> 1 <= st.rows[i].id < st.nextId)
    && (!st.hasTable ==> st.rows == [])
  }

  /** An insert: fails (no id) when the table does not exist. */
  function InsertSpec(st: Store, f: Fields): (Option<int>, Store)
  {
    if !st.hasTable then (None, st)
    else (Some(st.nextId), Store(true, st.rows + [Row(st.nextId, f)], st.nextId + 1))
  }

  /** Every row with id `id` gets the new fields; the others are untouched. */
  function ReplaceRows(rows: seq<Row>, id: int, f: Fields): (r: seq<Row>)
    ensures |r| == |rows|
    ensures forall i :: 0 <= i < |rows| ==> r[i] == if rows[i].id == id then Row(id, f) else rows[i]
  {
    if rows == [] then []
    else ReplaceRows(rows[..|rows| - 1], id, f) + [if rows[|rows| - 1].id == id then Row(id, f) else rows[|rows| - 1]]
  }

  /** An update by id: rows keep their place and their ids. */
  function UpdateSpec(st: Store, f: Fields, id: int): Store
  {
    st.(rows := ReplaceRows(st.rows, id, f))
  }

  /** Without the table there are no rows, so an update changes nothing. */
  lemma UpdateWithoutTable(st: Store, f: Fields, id: int)
    requires ValidStore(st) && !st.hasTable
    ensures UpdateSpec(st, f, id) == st
  {
  }

  lemma InsertKeepsValid(st: Store, f: Fields)
    requires ValidStore(st)
    ensures ValidStore(InsertSpec(st, f).1)
    ensures InsertSpec(st, f).0.Some? <==> st.hasTable
    ensures st.hasTable ==> InsertSpec(st, f).0 == Some(st.nextId) && forall i :: 0 <= i < |st.rows| ==> st.rows[i].id != st.nextId
  {
  }

  lemma UpdateKeepsValid(st: Store, f: Fields, id: int)
    requires ValidStore(st)
    ensures ValidStore(UpdateSpec(st, f, id))
  {
    var r := UpdateSpec(st, f, id).rows;
    assert forall i :: 0 <= i < |r| ==> r[i].id == st.rows[i].id;
  }

  /** The SQLite database as the engine sees it. */
  class Table {
    var hasTable: bool
    var columns: seq<string>
    var rows: seq<Row>
    var nextId: int

    function State(): Store
      reads this
    {
      Store(hasTable, rows, nextId)
    }

    ghost predicate Valid()
      reads this
    {
      ValidStore(State()) && (!hasTable ==> columns == [])
    }

    /** A database file without the table. */
    constructor ()
      ensures Valid() && State() == Store(false, [], 1) && columns == []
    {
      hasTable, columns, rows, nextId := false, [], [], 1;
    }

    method HasTable() returns (b: bool)
      ensures b == hasTable
    {
      b := hasTable;
    }

    /** Creates the table with its primary key column. */
    method CreateTable()
      requires Valid() && !hasTable
      modifies this
      ensures Valid() && State() == old(State()).(hasTable := true) && columns == [ID_FIELD]
    {
      hasTable := true;
      columns := [ID_FIELD];
    }

    method AddColumn(name: string)
      requires Valid() && hasTable
      modifies this`columns
      ensures Valid() && columns == old(columns) + [name]
    {
      columns := columns + [name];
    }

    method Insert(f: Fields) returns (id: Option<int>)
      requires Valid()
      modifies this`rows, this`nextId
      ensures Valid() && (id, State()) == InsertSpec(old(State()), f)
    {
      InsertKeepsValid(State(), f);
      if !hasTable {
        id := None;
      } else {
        id := Some(nextId);
        rows := rows + [Row(nextId, f)];
        nextId := nextId + 1;
      }
    }

    method Update(f: Fields, id: int)
      requires Valid()
      modifies this`rows
      ensures Valid() && State() == UpdateSpec(old(State()), f, id)
    {
      UpdateKeepsValid(State(), f, id);
      rows := ReplaceRows(rows, id, f);
    }
  }
}

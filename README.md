# HKV storage engine in Dafny

A model of the hierarchical key-value (HKV) storage engine. The engine
keeps a tree of items in one relational table. Each item is a row with
the columns `id`, `parentId`, `key`, `type`, `value`, `scope`,
`creationDate` and `userId`, and its children are the rows whose
`parentId` is its id.

The model has three parts:

- the item (`HKV`) and the search filter (`HKVSearchFilter`), as classes
  whose setters update fields in place;
- the query builder (`createQuery`), as a pure function from a filter's
  state to a structured SELECT statement, together with what that
  statement returns from a table of rows;
- the engine (`HKVStorage`), as a class over an in-memory table.
  - `save`, `saveData`, `get`, `getById`, `getChildren` and `getData` are
    methods that walk the trees step by step.
  - Each method is proved equal to a specification function (`SaveTree`,
    `SaveDataSpec`, `FetchSpec`, `FetchChildren`, …).
  - The properties the engine promises are proved about those functions.

The central theorem is `RoundTrip.GetDataAfterSaveData`: `getData(k)`
right after `saveData(k, v)` returns `v`.

Modules and files:

| file | module | contents |
|---|---|---|
| wrappers.dfy | Wrappers | `Option` (PHP's null next to a value) |
| values.dfy | PhpValues | PHP values, truthiness, `gettype`, the serializer pair |
| table.dfy | Table | the table: rows, insert with a fresh id, update by id |
| entity.dfy | Entity | class `HKV` and its snapshot datatype `Node` |
| filter.dfy | SearchFilter | class `HKVSearchFilter` and its state `FilterView` |
| query.dfy | Query | `createQuery`, WHERE, GROUP BY, ORDER BY, LIMIT |
| storage.dfy | Storage | class `HKVStorage`, its specification functions, `denormalize` |
| roundtrip.dfy | RoundTrip | the rows `saveData` writes and the round trip through `getData` |

Decisions the model makes explicit:

- **GROUP BY.** `GROUP BY key` keeps, for each key, its newest row: the
  largest `creationDate`, and of equal dates the later row in table order.
  The groups come out in table order, and `ORDER BY creationDate DESC` is
  a stable sort, so rows of equal date come back in table order. This tie
  order is the model's choice: SQLite gives rows of equal date no order,
  and its `GROUP BY` commonly emits the groups sorted by key.
- **LIKE.** `LIKE` is exact, case-sensitive comparison. SQLite's `LIKE`
  ignores ASCII case and treats `%` and `_` as wildcards; neither is
  modelled.
- **Clock.** The clock (`time()`) is a parameter, `now`, read once per
  call of `save` or `saveData`. In the source `save` reads `time()` only
  when it is given no time, and passes that time on to every child, so
  one `save` stamps its whole tree alike. `saveData`, however, calls `save`
  once per node without a time, so one `saveData` of a nested value may
  stamp its rows with different seconds; the model stamps them all with
  `now`.
- **Serializer.** The value serializer is a pair `Encode`/`Decode`. Two
  facts are used about it: `Decode(Encode(v)) == v`, and `Decode` leaves a
  value that is not serialized unchanged (in particular null, which `get`
  decodes as the value of every array node). It is defined as a wrapper
  constructor, so no axiom is needed.
- **Ids.** Ids and parent ids are integers or null. Truthiness is modelled
  as PHP has it: null, `""` and `"0"` are false for strings, and null and
  `0` are false for integers.
- **Recursion depth.** The recursion of `get` through `getChildren` and
  `getById` is bounded by a `fuel` parameter. The round trip asks for fuel
  at least the depth of the value.

## Model

| member | source | states |
|---|---|---|
| Entity.HKV.constructor | src/Entity/HKV.php:53-56 | a new item has every field null and no children |
| Entity.HKV.SetId | src/Entity/HKV.php:62-66 | `setId` stores the id (so `getId` returns it) and changes no other field of the item or its subtree |
| Entity.HKV.SetParentId | src/Entity/HKV.php:88-92 | `setParentId` stores the parent id and changes nothing else |
| Entity.HKV.SetScope | src/Entity/HKV.php:106-110 | `setScope` stores the scope and changes nothing else |
| Entity.HKV.SetUserId | src/Entity/HKV.php:152-156 | `setUserId` stores the user id and changes nothing else |
| Entity.HKV.SetCreationDate | src/Entity/HKV.php:170-174 | `setCreationDate` stores the date and changes nothing else |
| Entity.HKV.SetType | src/Entity/HKV.php:188-192 | `setType` stores the type and changes nothing else |
| Entity.HKV.SetKey | src/Entity/HKV.php:262-266 | `setKey` stores the key and changes nothing else |
| Entity.HKV.SetValue | src/Entity/HKV.php:272-276 | `setValue` stores the value and changes nothing else |
| Entity.HKV.GetType | src/Entity/HKV.php:197-216 | returns the explicit type when truthy, else null for a null value, the class name for an object, `gettype` otherwise; stores it, so a second call answers the same; nothing else changes |
| Storage.TypeOfStable | src/Entity/HKV.php:197-216 | deriving the type again from the stored result gives the same type |
| Entity.IsObjectTypeIff | src/Entity/HKV.php:297-301 | `isObject` holds exactly for "object" or a type that holds a backslash but does not start with one (a backslash only at index 0 does not count) |
| Entity.StrPos | src/Entity/HKV.php:300 | `strpos` answers the index of the first occurrence, or nothing when the character does not occur |
| Entity.HKV.SetChildren | src/Entity/HKV.php:134-146 | the new children are the HKV items and the arrays (built into new items) of the input, in input order; all other items are dropped; the parent's own fields are unchanged |
| Entity.HKV.Keep | src/Entity/HKV.php:136-143 | the loop of `setChildren` yields exactly the kept trees, in order, disjoint and fresh where built |
| Entity.HKV.FromTree | src/Entity/HKV.php:139 | building an item from an array description yields a fresh tree equal to the description |
| Entity.HKV.ToArray | src/Entity/HKV.php:223-240 | the result is the item's tree with every node's type as `getType` answers it, children converted recursively; every node caches that type |
| Entity.HKV.ChildrenToArray | src/Entity/HKV.php:230-236 | with children, each child is converted by `toArray`, in order, and the item's own fields are unchanged |
| Entity.HKV.ToArrays | src/Entity/HKV.php:231-235 | the loop of `toArray` converts each child in order and leaves the others untouched |
| SearchFilter.FetchesChildrenModes | src/Entity/HKVSearchFilter.php:60-64 | `shouldFetchChildren` holds exactly for the modes 1 and 3, not for 0 and 2 |
| SearchFilter.HKVSearchFilter.constructor | src/Entity/HKVSearchFilter.php:17-21 | a new filter fetches one item with its children, has no limit, no id and no projection |
| SearchFilter.HKVSearchFilter.SetFields | src/Entity/HKVSearchFilter.php:26-37 | `getFields` returns what `setFields` stored; nothing else changes |
| SearchFilter.HKVSearchFilter.SetFetchMethod | src/Entity/HKVSearchFilter.php:43-64 | stores the mode; `shouldFetchChildren` then holds exactly for modes 1 and 3 |
| SearchFilter.HKVSearchFilter.SetFetchLimit | src/Entity/HKVSearchFilter.php:69-88 | `getFetchLimit` returns what was set and `hasLimit` holds exactly when it is not null |
| SearchFilter.HKVSearchFilter.SetId | src/Entity/HKV.php:62-82 | the inherited `setId` stores the id; `hasId` then holds exactly when it is not null |
| SearchFilter.HKVSearchFilter.SetKey | src/Entity/HKV.php:262-266 | the inherited `setKey` stores the key and changes nothing else |
| SearchFilter.HKVSearchFilter.SetParentId | src/Entity/HKV.php:88-92 | the inherited `setParentId` stores the parent id and changes nothing else |
| SearchFilter.HKVSearchFilter.SetScope | src/Entity/HKV.php:106-110 | the inherited `setScope` stores the scope and changes nothing else |
| SearchFilter.HKVSearchFilter.SetUserId | src/Entity/HKV.php:152-156 | the inherited `setUserId` stores the user id and changes nothing else |
| SearchFilter.HKVSearchFilter.SetType | src/Entity/HKV.php:188-192 | the inherited `setType` stores the type and changes nothing else |
| SearchFilter.HKVSearchFilter.SetValue | src/Entity/HKV.php:272-276 | the inherited `setValue` stores the value and changes nothing else |
| SearchFilter.HKVSearchFilter.GetType | src/Entity/HKVSearchFilter.php:9 | the inherited `getType`: a filter without type and value derives null, and the derived type is stored |
| Query.CreateQuery | src/Driver/HKVStorage.php:359-404 | projection is the listed fields or `*`; an id (else a truthy key) opens the WHERE clause; grouped by key, newest first; LIMIT exactly when the filter has a limit, with that limit |
| Query.CondsMembers | src/Driver/HKVStorage.php:371-395 | the WHERE clause holds the id-or-key, owner, parent, scope and type conditions and nothing else |
| Query.QueryId | src/Driver/HKVStorage.php:371-372 | with an id the query compares `id` with it, and no other condition tests the id column |
| Query.QueryKeyAndType | src/Driver/HKVStorage.php:373-393 | the key column is compared with the key only when there is no id and the key is truthy, and with the derived type when that is truthy; the type column is never tested |
| Query.QueryOwner | src/Driver/HKVStorage.php:377-379 | a `userId` condition exists exactly when the user id is truthy |
| Query.QueryParent | src/Driver/HKVStorage.php:381-383 | a `parentId` condition exists exactly when the parent id is truthy |
| Query.QueryScope | src/Driver/HKVStorage.php:385-389 | exactly one scope condition: `LIKE` the scope when truthy, `IS NULL` otherwise |
| Query.WhereSound | src/Driver/HKVStorage.php:395 | WHERE keeps exactly the rows of the table that satisfy every condition |
| Query.WhereAppend | src/Driver/HKVStorage.php:395 | WHERE distributes over concatenated tables, keeping table order |
| Query.NewestUpToSound | src/Driver/HKVStorage.php:396 | the GROUP BY result is exactly the newest rows of their keys |
| Query.NewestLatest | src/Driver/HKVStorage.php:396 | every grouped row comes from the input, and no row of its key is newer |
| Query.NewestCovers | src/Driver/HKVStorage.php:396 | every key of the input has a row in the grouped result |
| Query.NewestDistinct | src/Driver/HKVStorage.php:396 | no two grouped rows share a key |
| Query.NewestUnique | src/Driver/HKVStorage.php:396 | two newest rows of the same key are the same row |
| Query.NewestDistinctKeys | src/Driver/HKVStorage.php:396 | rows with distinct keys are each their own group, in order |
| Query.NewestOneKey | src/Driver/HKVStorage.php:396 | rows of one key whose last row is newest collapse to that row |
| Query.SortDescSorts | src/Driver/HKVStorage.php:397 | ORDER BY creationDate DESC sorts newest first and is a permutation |
| Query.SortDescSameDate | src/Driver/HKVStorage.php:397 | the ordering is stable: rows of one date keep their order (the model's tie order, see GROUP BY above) |
| Query.InsertDescPerm | src/Driver/HKVStorage.php:397 | one insertion step of the ordering neither loses nor adds a row |
| Query.InsertDescSorted | src/Driver/HKVStorage.php:397 | one insertion step keeps rows newest first |
| Query.LimitPrefix | src/Driver/HKVStorage.php:399-401 | LIMIT keeps a prefix of at most `limit` rows, or all rows for a negative limit |
| Query.SelectSound | src/Driver/HKVStorage.php:359-404 | every returned row is a table row that satisfies every condition, and no two share a key |
| Query.SelectById | src/Driver/HKVStorage.php:371-372 | a filter naming an id returns at most one row, the one with that id |
| Query.SelectInScope | src/Driver/HKVStorage.php:385-389 | every returned row lies in the filter's scope: the scope when truthy, none otherwise |
| Table.InsertKeepsValid | src/Driver/HKVStorage.php:206 | an insert succeeds exactly when the table exists, hands out the next id, unused so far, and keeps ids unique |
| Table.UpdateWithoutTable | src/Driver/HKVStorage.php:202-203 | an update on a database without the table changes nothing |
| Table.UpdateKeepsValid | src/Driver/HKVStorage.php:203 | an update by id keeps ids unique |
| Table.ReplaceRows | src/Driver/HKVStorage.php:203 | an update rewrites exactly the rows with that id, in place |
| Storage.HKVStorage.constructor | src/Driver/HKVStorage.php:36-47 | a new database file gets the table with the id column and then the field columns, in order; an existing file is left as it is |
| Storage.HKVStorage.CreateDbStructure | src/Driver/HKVStorage.php:143-154 | the table exists afterwards; if it was missing its columns are `id` then the field names, in order; otherwise nothing changes |
| Storage.HKVStorage.Save | src/Driver/HKVStorage.php:181-222 | the item and the table afterwards are `SaveTree` of their old states, with the parent id the item held and the stamp time |
| Storage.HKVStorage.WriteNode | src/Driver/HKVStorage.php:185-212 | `toArray` caches every type, then the node's row is inserted (the item takes the new id) or updated by id |
| Storage.HKVStorage.WriteRow | src/Driver/HKVStorage.php:192-212 | the written row is `RowOf` the item, and the id afterwards is the one the insert or update gives |
| Storage.HKVStorage.SaveChildrenOf | src/Driver/HKVStorage.php:214-219 | each child is saved under the node's id at the same time; the node's other fields are unchanged |
| Storage.HKVStorage.SaveChildren | src/Driver/HKVStorage.php:215-218 | the loop over the children leaves them and the table as `SaveList` of their old trees |
| Storage.HKVStorage.SaveChildAt | src/Driver/HKVStorage.php:216-217 | one loop step saves child `i` under `pid` and leaves every other child untouched |
| Storage.SaveTreeWrites | src/Driver/HKVStorage.php:186-212 | `save` gives a node without id the id of its inserted row (if the table exists) and keeps an existing id; the table stays valid, old rows keep place and id |
| Storage.SaveTreeStamps | src/Driver/HKVStorage.php:214-219 | after `save` every child's parent id equals its parent's id at every depth, and with a table every node has an id |
| Storage.SaveListStamps | src/Driver/HKVStorage.php:215-218 | every saved child carries the parent id it was given, at every depth |
| Storage.SaveListWrites | src/Driver/HKVStorage.php:188-192 | every row written or rewritten by one `save` carries the one stamp time, also on the update path |
| Storage.RestampedTrans | src/Driver/HKVStorage.php:217 | the children's saves compose: rows stamped by each carry the same time |
| Storage.SaveTreeCached | src/Driver/HKVStorage.php:185 | caching the types with `toArray` before the save does not change what is written or returned |
| Storage.SaveStep | src/Driver/HKVStorage.php:181-222 | `save` is the cached row written, then the children saved under the node's id |
| Storage.SaveTreeParent | src/Driver/HKVStorage.php:216-217 | `save` of a child reads the parent id it was just given |
| Storage.HKVStorage.SaveData | src/Driver/HKVStorage.php:231-261 | the returned item and the table afterwards are `SaveDataSpec` of the old table |
| Storage.HKVStorage.SaveDataNode | src/Driver/HKVStorage.php:233-249 | the node is built with the setters (type `gettype` or the class name, no value for an array) and saved |
| Storage.HKVStorage.SaveEntriesOf | src/Driver/HKVStorage.php:251-256 | the entries of an array are saved under the node's id, in order |
| Storage.HKVStorage.SaveEntriesUnder | src/Driver/HKVStorage.php:251-258 | the saved entries become the node's children |
| Storage.HKVStorage.Get | src/Driver/HKVStorage.php:90-110 | the item is `FetchSpec` of the table and the filter: empty without a table, else the first row loaded, children fetched when the mode asks |
| Storage.FetchEmpty | src/Driver/HKVStorage.php:94-100 | a lookup on a missing or empty table returns an empty item (for the empty table, reading "no row" from `fetchRow` as an empty item, see Left out) |
| Storage.HKVStorage.LoadFirst | src/Driver/HKVStorage.php:98-103 | the first row hydrated, its type cached and its value decoded when it is an array or an object |
| Storage.HKVStorage.LoadChildren | src/Driver/HKVStorage.php:105-108 | the item's children are the ones `getChildren` fetches; its own fields are unchanged |
| Storage.HKVStorage.GetById | src/Driver/HKVStorage.php:68-82 | the item is `get` with a filter on the id, scope and user, with or without children |
| Storage.HKVStorage.GetChildren | src/Driver/HKVStorage.php:121-137 | the children are the rows under the parent, each fetched by id, in query order (with the scope carried, see Findings) |
| Storage.AsWrittenUnscoped | src/Driver/HKVStorage.php:90-137 | without a scope, `get` as written (children looked up without the scope) and `get` with the scope carried fetch the same item, at every depth |
| Storage.HKVStorage.GetEach | src/Driver/HKVStorage.php:132-134 | the loop fetches each found row by id and appends it, in order |
| Storage.HKVStorage.GetData | src/Driver/HKVStorage.php:290-301 | the result is `denormalize` of the item fetched for the key, scope, parent and user |
| Storage.DenormalizeShape | src/Driver/HKVStorage.php:309-325 | `denormalize` of an array node is an array whose keys are exactly its children's keys, each once; of any other node it is the node's value |
| PhpValues.PutKeys | src/Driver/HKVStorage.php:316-318 | after `$result[key] = value` the keys are the old keys and `key` |
| PhpValues.PutUnique | src/Driver/HKVStorage.php:316-318 | `$result[key] = value` keeps every key present once |
| RoundTrip.GetDataAfterSaveData | tests/HKVTest.php:126-143 | `getData(k)` right after `saveData(k, v)` returns `v`, for a truthy key not reused inside `v`, a null or truthy scope, objects of namespaced classes only and enough fuel (the further hypotheses are listed under Left out) |
| RoundTrip.LayoutSerialized | src/Driver/HKVStorage.php:194-198 | when every object in the value has a class name `isObject` accepts, no row `saveData` writes holds an unserialized object |
| RoundTrip.SavedRows | src/Driver/HKVStorage.php:231-261 | `saveData` appends exactly the rows of the value in pre-order under consecutive ids, and moves the next id past them |
| RoundTrip.WrittenRow | src/Driver/HKVStorage.php:188-200 | the row `saveData` writes for a node is `RowOf` the node `save` receives |
| RoundTrip.SelectChildren | src/Driver/HKVStorage.php:121-137 | on the saved rows, the scoped children query returns the entries' head rows in order |
| RoundTrip.DataIsById | src/Driver/HKVStorage.php:290-297 | the key lookup of `getData` finds the saved head row, the same as a lookup by its id |
| RoundTrip.FetchNode | src/Driver/HKVStorage.php:90-137 | fetching the saved node of `k => v` by its id, with children, gives a node with key `k` whose `denormalize` is `v` |
| RoundTrip.DenormalizeList | src/Driver/HKVStorage.php:309-325 | the loop of `denormalize` over children that rebuild the entries appends exactly those entries, keys and values in order |
| RoundTrip.ChildrenAsWrittenUnscoped | src/Driver/HKVStorage.php:125-129 | the children query as written asks only for rows without scope |
| RoundTrip.ChildrenAsWrittenMisses | src/Driver/HKVStorage.php:125-131 | on a table whose rows all have a scope, that query returns nothing |
| RoundTrip.ScopedChildrenLost | src/Driver/HKVStorage.php:121-137 | a scoped array saved with `saveData` has its entry missed by the as-written children query and found by the scoped one |
| RoundTrip.ScopedDataLost | src/Driver/HKVStorage.php:121-137 | with `get` as written, `getData(k, s)` right after `saveData(k, v, s)` for a truthy scope `s` and an array `v` returns the empty array |
| RoundTrip.NestedKeyShadows | src/Driver/HKVStorage.php:371-396 | `getData("a")` right after `saveData("a", ["a" => n])` returns `n`, not the array: the entry's row shadows the head row under GROUP BY |
| PhpValues.Put | src/Driver/HKVStorage.php:316-318 | `$result[key] = value` overwrites a present key in place and appends a new one |

## Left out

- The SQLite connection, quoting and escaping, `file_exists`, `destroy`
  and the table name are not modelled. The table is an in-memory sequence
  of rows with a next id, and the constructor takes "the database file did
  not exist" as a parameter.
- The serializer (`encodeValue`/`decodeValue`) is reduced to the
  `Encode`/`Decode` pair and its round trip. The JSON text it produces is
  not modelled.
- The `Value` datatype has no floating-point values or resources. An
  object carries its class name and properties. An object whose class
  name `isObject` accepts (a namespaced class) is stored and read back as
  one serialized value. Any other object (`stdClass`, a class without a
  namespace) reaches the table as it is: the in-memory table stores it,
  where SQLite cannot bind a PHP object. What SQLite does then is not
  modelled, and `RoundTrip.GetDataAfterSaveData` assumes no such object
  (`ObjectsSerialized`).
- `new HKV($array)` goes through reflection-based hydration. It is replaced
  by explicit construction (`Entity.HKV.FromTree`, `Storage.Hydrate`).
  `BaseEntity` and `UniqueBaseEntity` are not part of this model.
- The exception caught around the insert (and its `var_dump`) is modelled
  only as its effect: without a table the insert gives no id and the item
  keeps none.
- Table.Table.Update on a database without the table changes nothing
  (`Table.UpdateWithoutTable`). In the source the update
  (src/Driver/HKVStorage.php:203) is outside the `try`, so saving an item
  that already has an id into such a database raises an uncaught
  "no such table" error. The model does not model that error.
- The clock is the parameter `now`, read once per `save` or `saveData`.
- `LIKE` is exact, case-sensitive comparison: SQLite's ASCII case folding
  and the wildcards `%` and `_` are not modelled.
- Storage.HKVStorage.SaveData: the whole call is stamped with one clock
  reading `now`. The source reads `time()` once per node saved
  (src/Driver/HKVStorage.php:188-190, reached through lines 249 and 255),
  so the model covers a call that runs within one clock second.
- Storage.HKVStorage.GetChildren models the corrected `getChildren`, whose
  filter carries the scope. `get`, `getById`, `getData` and their
  specification `FetchSpec` are therefore the corrected program. The
  program as written is `Storage.FetchSpecAsWritten`:
  `Storage.AsWrittenUnscoped` proves the two agree without a scope, and
  `RoundTrip.ScopedDataLost` shows where they differ (see Findings).
- RoundTrip.SelectChildren: the entries come back in their order because
  every row of one `saveData` carries the same date `now`, and because rows
  of equal date come back in table order (the GROUP BY decision above).
  With the source's `time()` per node, an entry saved in a later second is
  newer and the children query, newest first, returns it first. Under
  SQLite, entries of equal date may come back in another order, for
  example sorted by key.
- RoundTrip.FetchNode holds for a truthy scope only with the
  scope-carrying children lookup. As written, `getChildren` finds no
  scoped entry (`RoundTrip.ScopedDataLost`).
- Entity.HKV.SetChildren requires its HKV items to be pairwise disjoint
  trees that do not contain the parent (`ItemsValid`). PHP accepts the
  same object twice, or the parent itself, as a child. The engine's own
  calls (`get` and `saveData`) pass fresh items.
- GROUP BY over non-grouped columns is given the newest-row-per-key meaning
  stated above. SQLite's own choice of row is not modelled.
- `intval` and PHP's loose comparisons are modelled only where they affect
  truthiness. Array keys are modelled as strings; PHP's conversion
  of numeric string keys to integers is not.
- The getters (`getId`, `getKey`, `getChildren`, `getFields`, …) are the
  fields themselves, and the setters' contracts speak about them.
- `createQuery` calls `getType` on the filter, which caches the derived
  type in the filter. The query function reads the derived type without
  writing it back; `SearchFilter.HKVSearchFilter.GetType` models the
  write on its own.
- The test `testGeo` and the Spatialite shell driver are not part of this
  model.
- Storage.FetchEmpty: when the query finds no row, the model's `get`
  returns the empty item. The source passes the result of `fetchRow`
  (src/Driver/HKVStorage.php:100) to `new HKV`, which accepts only null or
  an array. `fetchRow` belongs to the database driver, which is not part
  of this model; "no row" is taken to be a result `new HKV` accepts (null
  or an empty array). If the driver answered `false`, as PHP's SQLite3
  `fetchArray` does, a `get`, `getById` or `getData` that finds nothing
  would raise a type error instead.
- A new item's children, and those of an item fetched without children,
  are null in PHP and `[]` in the model. `hasChildren` (`count`) and the
  `foreach` of `denormalize` treat both alike under PHP 7; under PHP 8,
  `count(null)` raises a TypeError, which is not modelled.
- Entity.HKV.HasId, Entity.HKV.HasChildren, Entity.HKV.IsArray and
  Entity.HKV.IsObject are one-line predicates with no contract of their
  own. Their meaning is stated by the setters, by `Entity.IsObjectTypeIff`
  and by `Save` and `ToArray`, which use them.
- Storage.HKVStorage.Get: the recursion through `getChildren` is bounded
  by `fuel`. With too little fuel the deepest children are not fetched,
  where the source recurses until there are none.
- RoundTrip.GetDataAfterSaveData is stated under some hypotheses:
  - the scope is null or truthy, because a scope of `""` or `"0"` is stored
    but looked up as `IS NULL`;
  - the key is not reused as a key inside the value (`KeyFree`), because
    then the newest row with that key would no longer be the saved head:
    `saveData("a", ["a" => 1])` then `getData("a")` returns 1
    (`RoundTrip.NestedKeyShadows`);
  - `KeyFree` is exact inequality. Under SQLite's `LIKE` the keys inside
    the value, and those of the stored rows, would also have to differ
    from `k` in ASCII case, and `k` would have to hold no `%` or `_`;
  - the stored rows are no newer than `now`;
  - the parent id `pid`, and every parent id already stored, is below the
    next id, so no stored row sits under a node the call creates;
  - the value is well formed (unique keys, no class named "array");
  - every object in the value has a namespaced class (`ObjectsSerialized`);
  - `fuel` is at least the depth of the value;
  - the whole call runs within one clock second (one `now`), which the
    order of the entries read back depends on;
  - rows of equal date come back in table order, through GROUP BY and
    ORDER BY alike (the model's choice; SQLite does not promise it);
  - the table returns each scalar with the PHP type it was written with.
    The in-memory table stores a typed `Value`. SQLite has no boolean type
    and stores booleans as integers, and the driver may return numbers as
    strings, so under SQLite `saveData("k", true)` then `getData("k")`
    would not give back PHP `true`.
  The children lookup it uses carries the scope (see Findings).

## Findings

| source | as written | input that shows it | evidently intended | confidence | as-written member | corrected member |
|---|---|---|---|---|---|---|
| src/Driver/HKVStorage.php:125-129 | `getChildren` builds its filter without `setScope($scope)`, so its query always asks for `scope IS NULL` | `saveData("k", ["b" => 1], "s")` into an empty table, then `getData("k", "s")`: the array's node is found but its entry row (scope "s") is not, so the result is an empty array | the children are looked up in the scope of the parent's lookup, so the round trip holds in a scope | not executed | RoundTrip.ScopedDataLost | RoundTrip.GetDataAfterSaveData |

/**
 * The search filter (class HKVSearchFilter): the HKV fields a query looks
 * at, plus a fetch mode, a projection and a result limit.
 */
module SearchFilter {
  import opened Wrappers
  import opened PhpValues
  import opened Entity

  const FETCH_ONE_WITHOUT_CHILDREN := 0
  const FETCH_ONE_AND_CHILDREN := 1
  const FETCH_MANY_WITHOUT_CHILDREN := 2
  const FETCH_MANY_AND_CHILDREN := 3

  /** The state of a filter, as `createQuery` and `get` read it. */
  datatype FilterView = FilterView(
    id: Option<int>,
    key: Option<string>,
    parentId: Option<int>,
    scope: Option<string>,
    userId: Option<string>,
    typeName: Option<string>,
    value: Value,
    fields: Option<seq<string>>,
    fetchMethod: int,
    fetchLimit: Option<int>)

  /** A new filter: every inherited field null, no projection, no limit,
    * and the mode that fetches one item with its children. */
  const DefaultView := FilterView(None, None, None, None, None, None, Null, None, FETCH_ONE_AND_CHILDREN, None)

  /** `shouldFetchChildren` on a fetch mode: strict comparison with the two
    * modes that fetch children. */
  predicate FetchesChildren(mode: int)
  {
    mode == FETCH_MANY_AND_CHILDREN || mode == FETCH_ONE_AND_CHILDREN
  }

  lemma FetchesChildrenModes(mode: int)
    ensures FetchesChildren(mode) <==> mode in {1, 3}
    ensures !FetchesChildren(FETCH_ONE_WITHOUT_CHILDREN) && !FetchesChildren(FETCH_MANY_WITHOUT_CHILDREN)
  {
    assert FetchesChildren(mode) <==> mode == 1 || mode == 3;
  }

  class HKVSearchFilter {
    var id: Option<int>
    var key: Option<string>
    var parentId: Option<int>
    var scope: Option<string>
    var userId: Option<string>
    var typeName: Option<string>
    var value: Value
    var fields: Option<seq<string>>
    var fetchMethod: int
    var fetchLimit: Option<int>

    function View(): FilterView
      reads this
    {
      FilterView(id, key, parentId, scope, userId, typeName, value, fields, fetchMethod, fetchLimit)
    }

    constructor ()
      ensures View() == DefaultView
      ensures ShouldFetchChildren() && !HasLimit() && !HasId() && GetFields() == None
    {
      id, key, parentId, scope, userId := None, None, None, None, None;
      typeName, value := None, Null;
      fields, fetchMethod, fetchLimit := None, FETCH_ONE_AND_CHILDREN, None;
    }

    method SetId(x: Option<int>)
      modifies this`id
      ensures View() == old(View()).(id := x) && HasId() == x.Some?
    {
      id := x;
    }

    predicate HasId()
      reads this
    {
      id != None
    }

    method SetKey(x: Option<string>)
      modifies this`key
      ensures View() == old(View()).(key := x)
    {
      key := x;
    }

    method SetParentId(x: Option<int>)
      modifies this`parentId
      ensures View() == old(View()).(parentId := x)
    {
      parentId := x;
    }

    method SetScope(x: Option<string>)
      modifies this`scope
      ensures View() == old(View()).(scope := x)
    {
      scope := x;
    }

    method SetUserId(x: Option<string>)
      modifies this`userId
      ensures View() == old(View()).(userId := x)
    {
      userId := x;
    }

    method SetType(x: Option<string>)
      modifies this`typeName
      ensures View() == old(View()).(typeName := x)
    {
      typeName := x;
    }

    method SetValue(x: Value)
      modifies this`value
      ensures View() == old(View()).(value := x)
    {
      value := x;
    }

    /** `getType` inherited from HKV: derives the type and stores it. */
    method GetType() returns (t: Option<string>)
      modifies this`typeName
      ensures t == TypeOf(old(typeName), value)
      ensures View() == old(View()).(typeName := t)
    {
      t := TypeOf(typeName, value);
      typeName := t;
    }

    method SetFields(x: Option<seq<string>>)
      modifies this`fields
      ensures View() == old(View()).(fields := x) && GetFields() == x
    {
      fields := x;
    }

    function GetFields(): Option<seq<string>>
      reads this
    {
      fields
    }

    method SetFetchMethod(x: int)
      modifies this`fetchMethod
      ensures View() == old(View()).(fetchMethod := x) && GetFetchMethod() == x
      ensures ShouldFetchChildren() <==> x == FETCH_ONE_AND_CHILDREN || x == FETCH_MANY_AND_CHILDREN
    {
      fetchMethod := x;
    }

    function GetFetchMethod(): int
      reads this
    {
      fetchMethod
    }

    predicate ShouldFetchChildren()
      reads this
    {
      FetchesChildren(fetchMethod)
    }

    function GetFetchLimit(): Option<int>
      reads this
    {
      fetchLimit
    }

    predicate HasLimit()
      reads this
    {
      fetchLimit != None
    }

    method SetFetchLimit(x: Option<int>)
      modifies this`fetchLimit
      ensures View() == old(View()).(fetchLimit := x) && GetFetchLimit() == x
      ensures HasLimit() <==> x.Some?
    {
      fetchLimit := x;
    }
  }
}

/**
 * One stored item of the hierarchical key-value store (class HKV): its
 * identity, parent link, key, type tag, value, ordered children, scope,
 * creation date and owner.
 */
module Entity {
  import opened Wrappers
  import opened PhpValues

  const TYPE_ARRAY := "array"
  const TYPE_OBJECT := "object"
  const TYPE_STRING := "string"

  /** A snapshot of one HKV object and, through `children`, of its subtree. */
  datatype Node = Node(
    id: Option<int>,
    parentId: Option<int>,
    key: Option<string>,
    typeName: Option<string>,
    value: Value,
    children: seq<Node>,
    scope: Option<string>,
    creationDate: Option<int>,
    userId: Option<string>)

  /** `new HKV()`: every field null, no children. */
  const EmptyNode := Node(None, None, None, None, Null, [], None, None, None)

  /** What `getType` answers: the explicit type when it is truthy, otherwise
    * null for a null value, the class name for an object, `gettype` else. */
  function TypeOf(explicit: Option<string>, v: Value): Option<string>
  {
    if Truthy(explicit) then explicit
    else match v
      case Null => None
      case Obj(c, _) => Some(c)
      case _ => Some(GetTypeName(v))
  }

  predicate IsArrayType(t: Option<string>)
  {
    t == Some(TYPE_ARRAY)
  }

  /** PHP `strpos($s, $c)`: the index of the first occurrence, if any. */
  function StrPos(s: string, c: char): (r: Option<nat>)
    ensures r.Some? ==> r.value < |s| && s[r.value] == c && forall i :: 0 <= i < r.value ==> s[i] != c
    ensures r.None? ==> forall i :: 0 <= i < |s| ==> s[i] != c
  {
    if s == [] then None
    else if s[0] == c then Some(0)
    else match StrPos(s[1..], c)
      case None => None
      case Some(i) => Some(i + 1)
  }

  /** `isObject`: the type is "object", or `strpos` finds a backslash at a
    * truthy position, that is, the FIRST backslash is not at index 0. */
  predicate IsObjectType(t: Option<string>)
  {
    || t == Some(TYPE_OBJECT)
    || (t.Some? && match StrPos(t.value, '\\') case Some(i) => i > 0 case None => false)
  }

  /** A type names an object exactly when it is "object", or when it holds a
    * backslash but does not start with one. */
  lemma IsObjectTypeIff(t: string)
    ensures IsObjectType(Some(t)) <==>
              t == TYPE_OBJECT || (|t| > 0 && t[0] != '\\' && exists i :: 0 < i < |t| && t[i] == '\\')
  {
    match StrPos(t, '\\') {
      case None =>
      case Some(i) =>
        if i > 0 {
          assert t[i] == '\\';
        }
    }
  }

  /** The tree after `getType` has run on every node of it. */
  function CacheTypes(t: Node): Node
  {
    t.(typeName := TypeOf(t.typeName, t.value), children := CacheList(t.children))
  }

  function CacheList(ts: seq<Node>): (r: seq<Node>)
    ensures |r| == |ts| && forall i :: 0 <= i < |ts| ==> r[i] == CacheTypes(ts[i])
  {
    if ts == [] then [] else CacheList(ts[..|ts| - 1]) + [CacheTypes(ts[|ts| - 1])]
  }

  /** An entry handed to `setChildren`: an HKV object, an array that
    * describes a node, or anything else. */
  datatype ChildItem = NodeChild(node: HKV) | ArrayChild(data: Node) | OtherChild(other: Value)

  /** The HKV objects among the items. */
  function ItemNodes(items: seq<ChildItem>): set<HKV>
  {
    set i | 0 <= i < |items| && items[i].NodeChild? :: items[i].node
  }

  /** Every object of every HKV item's subtree. */
  ghost function ItemsRepr(items: seq<ChildItem>): set<HKV>
    reads ItemNodes(items)
  {
    set i, o | 0 <= i < |items| && items[i].NodeChild? && o in items[i].node.Repr :: o
  }

  /** The HKV items are trees, pairwise disjoint, and none contains `self`. */
  ghost predicate ItemsValid(items: seq<ChildItem>, self: HKV)
    reads ItemNodes(items), ItemsRepr(items)
  {
    && (forall i :: 0 <= i < |items| && items[i].NodeChild? ==>
          items[i].node.Valid() && self !in items[i].node.Repr)
    && (forall i, j :: 0 <= i < j < |items| && items[i].NodeChild? && items[j].NodeChild? ==>
          items[i].node.Repr !! items[j].node.Repr)
  }

  /** The objects of an HKV item's subtree; none for other items. */
  ghost function ItemRepr(item: ChildItem): set<HKV>
    reads if item.NodeChild? then {item.node} else {}
  {
    if item.NodeChild? then item.node.Repr else {}
  }

  /** What `setChildren` keeps of one item: an HKV item as it is, an array
    * as the node it describes, nothing of anything else. */
  ghost function ItemTree(item: ChildItem): seq<Node>
    reads if item.NodeChild? then {item.node} + item.node.Repr else {}
    requires item.NodeChild? ==> item.node.Valid()
  {
    match item
    case NodeChild(h) => [h.Tree()]
    case ArrayChild(d) => [d]
    case OtherChild(_) => []
  }

  /** What `setChildren` keeps of each of the first `n` items. */
  ghost function ItemTrees(items: seq<ChildItem>, n: nat, self: HKV): (r: seq<seq<Node>>)
    reads ItemNodes(items), ItemsRepr(items)
    requires n <= |items| && ItemsValid(items, self)
    ensures |r| == n && forall j :: 0 <= j < n ==> r[j] == ItemTree(items[j])
  {
    if n == 0 then [] else ItemTrees(items, n - 1, self) + [ItemTree(items[n - 1])]
  }

  /** The concatenation of the lists, in order. */
  function Concat(ss: seq<seq<Node>>): seq<Node>
  {
    if ss == [] then [] else Concat(ss[..|ss| - 1]) + ss[|ss| - 1]
  }

  /** The trees `setChildren` keeps: those of the items, in order. */
  ghost function KeptTrees(items: seq<ChildItem>, self: HKV): seq<Node>
    reads ItemNodes(items), ItemsRepr(items)
    requires ItemsValid(items, self)
  {
    Concat(ItemTrees(items, |items|, self))
  }

  lemma ItemReprWithin(items: seq<ChildItem>, i: nat)
    requires i < |items|
    ensures ItemRepr(items[i]) <= ItemsRepr(items)
  {
  }

  /** What `setChildren` still has to do from item `i` on: the HKV items
    * left are valid trees, disjoint from each other and from `rs`, and
    * `views` shows what each item gives; `within` holds their objects. */
  ghost predicate Pending(items: seq<ChildItem>, views: seq<seq<Node>>, i: nat, rs: set<HKV>, within: set<HKV>)
    reads within
  {
    && i <= |items| == |views|
    && (forall j :: i <= j < |items| ==>
          && (items[j].NodeChild? ==>
                && items[j].node in within && items[j].node.Repr <= within
                && items[j].node.Valid() && rs !! items[j].node.Repr)
          && views[j] == ItemTree(items[j]))
    && (forall j, l :: i <= j < l < |items| && items[j].NodeChild? && items[l].NodeChild? ==>
          items[j].node.Repr !! items[l].node.Repr)
  }

  lemma PendingStep(items: seq<ChildItem>, views: seq<seq<Node>>, i: nat, rs: set<HKV>, within: set<HKV>, extra: set<HKV>)
    requires i < |items| && Pending(items, views, i, rs, within)
    requires forall j :: i < j < |items| && items[j].NodeChild? ==> extra !! items[j].node.Repr
    ensures Pending(items, views, i + 1, rs + extra, within)
  {
  }

  /** The state of `setChildren`'s loop after `i` items: the rest is still
    * to do, and `kept` holds, inside `rs`, the trees of the items done. */
  ghost predicate Progress(items: seq<ChildItem>, views: seq<seq<Node>>, i: nat,
                           kept: seq<HKV>, rs: set<HKV>, within: set<HKV>)
    reads within, rs
  {
    && Pending(items, views, i, rs, within)
    && Forest(kept, rs)
    && HKV.Trees(kept, rs) == Concat(views[..i])
  }

  /** An HKV item is kept as it is. */
  lemma KeepNodeStep(items: seq<ChildItem>, views: seq<seq<Node>>, i: nat,
                     kept: seq<HKV>, rs: set<HKV>, within: set<HKV>)
    requires i < |items| && items[i].NodeChild? && Progress(items, views, i, kept, rs, within)
    ensures items[i].node.Repr <= within
    ensures Progress(items, views, i + 1, kept + [items[i].node], rs + items[i].node.Repr, within)
  {
    var h := items[i].node;
    assert views[..i + 1] == views[..i] + [[h.Tree()]];
    ConcatSnoc(views[..i], [h.Tree()]);
    ForestSnoc(kept, h, rs);
    PendingStep(items, views, i, rs, within, h.Repr);
  }

  /** An array item is kept as a new node `h` holding its tree. */
  lemma KeepTreeStep(items: seq<ChildItem>, views: seq<seq<Node>>, i: nat,
                     kept: seq<HKV>, rs: set<HKV>, within: set<HKV>, h: HKV)
    requires i < |items| && items[i].ArrayChild? && Progress(items, views, i, kept, rs, within)
    requires h.Valid() && h.Tree() == items[i].data && h.Repr !! within && h.Repr !! rs
    ensures Progress(items, views, i + 1, kept + [h], rs + h.Repr, within)
  {
    assert views[..i + 1] == views[..i] + [[h.Tree()]];
    ConcatSnoc(views[..i], [h.Tree()]);
    ForestSnoc(kept, h, rs);
    PendingStep(items, views, i, rs, within, h.Repr);
  }

  /** An item that is neither an array nor an HKV adds nothing. */
  lemma DropStep(items: seq<ChildItem>, views: seq<seq<Node>>, i: nat,
                 kept: seq<HKV>, rs: set<HKV>, within: set<HKV>)
    requires i < |items| && items[i].OtherChild? && Progress(items, views, i, kept, rs, within)
    ensures Progress(items, views, i + 1, kept, rs, within)
  {
    assert views[..i + 1] == views[..i] + [[]];
    ConcatSnoc(views[..i], []);
    PendingStep(items, views, i, rs, within, {});
  }

  /** Before the loop of `setChildren`, every item is still to do. */
  lemma PendingStart(items: seq<ChildItem>, self: HKV, within: set<HKV>)
    requires ItemsValid(items, self) && within == ItemsRepr(items)
    ensures Pending(items, ItemTrees(items, |items|, self), 0, {}, within)
  {
    forall j | 0 <= j < |items| && items[j].NodeChild?
      ensures items[j].node in within && items[j].node.Repr <= within
    {
      ItemReprWithin(items, j);
    }
  }

  lemma ConcatSnoc(ss: seq<seq<Node>>, s: seq<Node>)
    ensures Concat(ss + [s]) == Concat(ss) + s
  {
    assert (ss + [s])[..|ss|] == ss;
  }

  /** Trees that are valid, lie inside `rs` and are pairwise disjoint. */
  ghost predicate Forest(cs: seq<HKV>, rs: set<HKV>)
    reads rs
  {
    && (forall k :: 0 <= k < |cs| ==> cs[k] in rs && cs[k].Repr <= rs && cs[k].Valid())
    && (forall k, l :: 0 <= k < l < |cs| ==> cs[k].Repr !! cs[l].Repr)
  }

  class HKV {
    var id: Option<int>
    var parentId: Option<int>
    var key: Option<string>
    var typeName: Option<string>
    var value: Value
    var children: seq<HKV>
    var scope: Option<string>
    var creationDate: Option<int>
    var userId: Option<string>

    /** This object and every object of its subtree. */
    ghost var Repr: set<HKV>

    /** The children form a tree: each child's subtree lies inside this one,
      * does not contain this object, and is disjoint from its siblings'. */
    ghost predicate Valid()
      reads this, Repr
      ensures Valid() ==> this in Repr
      decreases Repr
    {
      && this in Repr
      && (forall i :: 0 <= i < |children| ==>
            && children[i] in Repr
            && children[i].Repr <= Repr
            && this !in children[i].Repr
            && children[i].Valid())
      && (forall i, j :: 0 <= i < j < |children| ==> children[i].Repr !! children[j].Repr)
    }

    function Tree(): Node
      reads this, Repr
      requires Valid()
      decreases Repr, 1
    {
      Node(id, parentId, key, typeName, value, Trees(children, Repr - {this}), scope, creationDate, userId)
    }

    static function Trees(cs: seq<HKV>, ghost bound: set<HKV>): (r: seq<Node>)
      reads bound
      requires forall i :: 0 <= i < |cs| ==> cs[i] in bound && cs[i].Repr <= bound && cs[i].Valid()
      ensures |r| == |cs| && forall i :: 0 <= i < |cs| ==> r[i] == cs[i].Tree()
      decreases bound, 2, |cs|
    {
      if cs == [] then [] else Trees(cs[..|cs| - 1], bound) + [cs[|cs| - 1].Tree()]
    }

    constructor ()
      ensures Valid() && fresh(Repr) && Tree() == EmptyNode
    {
      id, parentId, key, typeName, value := None, None, None, None, Null;
      children, scope, creationDate, userId := [], None, None, None;
      Repr := {this};
    }

    method SetId(x: Option<int>)
      requires Valid()
      modifies this`id
      ensures Valid() && Tree() == old(Tree()).(id := x)
    {
      id := x;
    }

    predicate HasId()
      reads this
    {
      id != None
    }

    method SetParentId(x: Option<int>)
      requires Valid()
      modifies this`parentId
      ensures Valid() && Tree() == old(Tree()).(parentId := x)
    {
      parentId := x;
    }

    method SetScope(x: Option<string>)
      requires Valid()
      modifies this`scope
      ensures Valid() && Tree() == old(Tree()).(scope := x)
    {
      scope := x;
    }

    method SetUserId(x: Option<string>)
      requires Valid()
      modifies this`userId
      ensures Valid() && Tree() == old(Tree()).(userId := x)
    {
      userId := x;
    }

    method SetCreationDate(x: Option<int>)
      requires Valid()
      modifies this`creationDate
      ensures Valid() && Tree() == old(Tree()).(creationDate := x)
    {
      creationDate := x;
    }

    method SetType(x: Option<string>)
      requires Valid()
      modifies this`typeName
      ensures Valid() && Tree() == old(Tree()).(typeName := x)
    {
      typeName := x;
    }

    method SetKey(x: Option<string>)
      requires Valid()
      modifies this`key
      ensures Valid() && Tree() == old(Tree()).(key := x)
    {
      key := x;
    }

    method SetValue(x: Value)
      requires Valid()
      modifies this`value
      ensures Valid() && Tree() == old(Tree()).(value := x)
    {
      value := x;
    }

    /** `getType`, which writes the derived type back into the object. */
    method GetType() returns (t: Option<string>)
      requires Valid()
      modifies this`typeName
      ensures Valid() && t == TypeOf(old(typeName), value)
      ensures Tree() == old(Tree()).(typeName := t)
      ensures TypeOf(typeName, value) == t
    {
      t := TypeOf(typeName, value);
      typeName := t;
    }

    predicate HasChildren()
      reads this
    {
      |children| > 0
    }

    predicate IsArray()
      reads this
    {
      IsArrayType(TypeOf(typeName, value))
    }

    predicate IsObject()
      reads this
    {
      IsObjectType(TypeOf(typeName, value))
    }
    /** Makes `cs` the children of this object (the shared last step of
      * `setChildren` and of building a tree); `rs` covers their subtrees. */
    method Adopt(cs: seq<HKV>, ghost rs: set<HKV>)
      requires Valid() && Forest(cs, rs) && this !in rs
      modifies this`children, this`Repr
      ensures Valid() && Repr == {this} + rs && children == cs
      ensures Tree() == old(Tree()).(children := old(Trees(cs, rs)))
    {
      ghost var ts := Trees(cs, rs);
      children := cs;
      Repr := {this} + rs;
      assert Forest(cs, rs) && Trees(cs, rs) == ts;
      assert Repr - {this} == rs;
    }

    /** `new HKV($data)` for the fields of `d`, without children yet. */
    constructor Leaf(d: Node)
      ensures Valid() && fresh(Repr) && Tree() == d.(children := [])
    {
      id, parentId, key, typeName, value := d.id, d.parentId, d.key, d.typeName, d.value;
      children, scope, creationDate, userId := [], d.scope, d.creationDate, d.userId;
      Repr := {this};
    }

    /** Explicit construction of a node tree from its description; stands
      * for the hydration of a nested array by `new HKV($array)`. */
    static method FromTree(d: Node) returns (h: HKV)
      ensures h.Valid() && fresh(h.Repr) && h.Tree() == d
      decreases d
    {
      h := new HKV.Leaf(d);
      var cs, rs := FromTrees(d.children);
      h.Adopt(cs, rs);
      assert h.Tree().children == d.children;
    }

    /** `FromTree` on each description, giving disjoint fresh trees. */
    static method FromTrees(ds: seq<Node>) returns (cs: seq<HKV>, ghost rs: set<HKV>)
      ensures fresh(rs) && Forest(cs, rs) && Trees(cs, rs) == ds
      decreases ds
    {
      cs, rs := [], {};
      var i := 0;
      while i < |ds|
        invariant 0 <= i <= |ds| && fresh(rs) && Forest(cs, rs) && Trees(cs, rs) == ds[..i]
      {
        assert ds[..i + 1] == ds[..i] + [ds[i]];
        var c := FromTree(ds[i]);
        ForestSnoc(cs, c, rs);
        cs, rs := cs + [c], rs + c.Repr;
        i := i + 1;
      }
    }

    /** `setChildren`: keeps HKV items and arrays (built into new nodes), in
      * their order, and drops every other item. */
    method SetChildren(items: seq<ChildItem>)
      requires Valid() && ItemsValid(items, this)
      modifies this`children, this`Repr
      ensures Valid() && fresh(Repr - {this} - old(ItemsRepr(items)))
      ensures Tree() == old(Tree()).(children := old(KeptTrees(items, this)))
    {
      assert this !in ItemsRepr(items);
      var kept, rs := Keep(items, this, ItemsRepr(items));
      Adopt(kept, rs);
    }

    /** The loop of `setChildren`: the HKV objects it keeps, in order. */
    static method Keep(items: seq<ChildItem>, ghost self: HKV, ghost within: set<HKV>)
      returns (kept: seq<HKV>, ghost rs: set<HKV>)
      requires ItemsValid(items, self) && within == ItemsRepr(items) && self !in within
      ensures self !in rs && fresh(rs - within) && Forest(kept, rs)
      ensures Trees(kept, rs) == old(KeptTrees(items, self))
    {
      ghost var views := ItemTrees(items, |items|, self);
      PendingStart(items, self, within);
      kept, rs := [], {};
      var i := 0;
      while i < |items|
        invariant 0 <= i <= |items| && Progress(items, views, i, kept, rs, within)
        invariant fresh(rs - within)
      {
        kept, rs := KeepStep(items, i, kept, rs, views, within);
        i := i + 1;
      }
      assert views[..i] == views;
    }

    /** One step of `setChildren`'s loop: item `i` kept, turned into a new
      * node, or dropped. */
    static method KeepStep(items: seq<ChildItem>, i: nat, kept: seq<HKV>, ghost rs: set<HKV>,
                           ghost views: seq<seq<Node>>, ghost within: set<HKV>)
      returns (kept': seq<HKV>, ghost rs': set<HKV>)
      requires i < |items| && Progress(items, views, i, kept, rs, within)
      ensures Progress(items, views, i + 1, kept', rs', within)
      ensures rs <= rs' && fresh(rs' - rs - within)
    {
      match items[i] {
        case NodeChild(h) =>
          KeepNodeStep(items, views, i, kept, rs, within);
          kept', rs' := kept + [h], rs + h.Repr;
        case ArrayChild(d) =>
          var h := FromTree(d);
          assert Progress(items, views, i, kept, rs, within);
          KeepTreeStep(items, views, i, kept, rs, within, h);
          kept', rs' := kept + [h], rs + h.Repr;
        case OtherChild(_) =>
          DropStep(items, views, i, kept, rs, within);
          kept', rs' := kept, rs;
      }
    }

    /** `toArray`: the node's fields with its children converted (only when
      * it has some) and its type as `getType` answers; `getType` writes the
      * derived type into every node on the way. */
    method ToArray() returns (r: Node)
      requires Valid()
      modifies Repr
      ensures Valid() && Repr == old(Repr)
      ensures r == CacheTypes(old(Tree())) && Tree() == r
      decreases Repr, 1
    {
      var out := ChildrenToArray();
      var t := GetType();
      r := Node(id, parentId, key, t, value, out, scope, creationDate, userId);
    }

    /** The children part of `toArray`: each child converted, in order, when
      * the item has children; the item's own fields are unchanged. */
    method ChildrenToArray() returns (out: seq<Node>)
      requires Valid()
      modifies Repr - {this}
      ensures Valid() && Repr == old(Repr)
      ensures out == CacheList(old(Tree()).children) && Tree() == old(Tree()).(children := out)
      decreases Repr, 0
    {
      out := [];
      if HasChildren() {
        out := ToArrays(children, Repr - {this});
      }
    }

    /** `toArray` on each tree of a forest, in order. */
    static method ToArrays(cs: seq<HKV>, ghost rs: set<HKV>) returns (out: seq<Node>)
      requires Forest(cs, rs)
      modifies rs
      ensures Forest(cs, rs) && forall k :: 0 <= k < |cs| ==> cs[k].Repr == old(cs[k].Repr)
      ensures |out| == |cs|
      ensures forall k :: 0 <= k < |cs| ==> out[k] == CacheTypes(old(cs[k].Tree())) && cs[k].Tree() == out[k]
      decreases rs, 3
    {
      out := [];
      var i := 0;
      while i < |cs|
        invariant 0 <= i <= |cs| && |out| == i && Forest(cs, rs)
        invariant forall k :: 0 <= k < |cs| ==> cs[k].Repr == old(cs[k].Repr)
        invariant forall k :: 0 <= k < i ==> out[k] == CacheTypes(old(cs[k].Tree())) && cs[k].Tree() == out[k]
        invariant forall k :: i <= k < |cs| ==> cs[k].Tree() == old(cs[k].Tree())
      {
        var e := ToArrayAt(cs, rs, i);
        out := out + [e];
        i := i + 1;
      }
    }

    /** `toArray` on the `i`-th tree of a forest; the other trees stay as
      * they were. */
    static method ToArrayAt(cs: seq<HKV>, ghost rs: set<HKV>, i: nat) returns (e: Node)
      requires i < |cs| && Forest(cs, rs)
      modifies rs
      ensures Forest(cs, rs) && forall k :: 0 <= k < |cs| ==> cs[k].Repr == old(cs[k].Repr)
      ensures e == CacheTypes(old(cs[i].Tree())) && cs[i].Tree() == e
      ensures forall k :: 0 <= k < |cs| && k != i ==> cs[k].Tree() == old(cs[k].Tree())
      decreases rs, 2
    {
      e := cs[i].ToArray();
      forall k | 0 <= k < |cs| && k != i
        ensures cs[k].Repr == old(cs[k].Repr) && cs[k].Valid() && cs[k].Tree() == old(cs[k].Tree())
      {
        assert old(cs[k].Repr) !! old(cs[i].Repr);
        assert unchanged(old(cs[k].Repr));
      }
    }
  }

  /** Adding a tree to the end of a forest, inside a larger cover set. */
  lemma ForestSnoc(cs: seq<HKV>, c: HKV, rs: set<HKV>)
    requires Forest(cs, rs) && c.Valid() && rs !! c.Repr
    ensures Forest(cs + [c], rs + c.Repr)
    ensures HKV.Trees(cs + [c], rs + c.Repr) == HKV.Trees(cs, rs) + [c.Tree()]
  {
  }

}

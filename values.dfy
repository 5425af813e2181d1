/**
 * The dynamically typed PHP values the storage engine stores: scalars,
 * ordered arrays (maps from string keys to values), objects carrying their
 * class name, and the text produced by the value serializer.
 */
module PhpValues {
  import opened Wrappers

  datatype Value =
    | Null
    | Bool(b: bool)
    | Int(i: int)
    | Str(s: string)
    | Arr(entries: seq<Entry>)
    | Obj(className: string, props: seq<Entry>)
      /** The text the value serializer produced for `payload`. */
    | Serialized(payload: Value)

  /** One `key => value` pair of a PHP array. */
  datatype Entry = Entry(key: string, val: Value)

  /** PHP truthiness of a nullable string: null, "" and "0" are false. */
  predicate Truthy(s: Option<string>)
  {
    s.Some? && s.value != "" && s.value != "0"
  }

  /** PHP truthiness of a nullable integer: null and 0 are false. */
  predicate TruthyInt(n: Option<int>)
  {
    n.Some? && n.value != 0
  }

  /** PHP's `gettype`. */
  function GetTypeName(v: Value): string
  {
    match v
    case Null => "NULL"
    case Bool(_) => "boolean"
    case Int(_) => "integer"
    case Str(_) => "string"
    case Arr(_) => "array"
    case Obj(_, _) => "object"
    case Serialized(_) => "string"
  }

  /** The value serializer, reduced to the one fact the engine relies on:
    * its output can be decoded back. */
  function Encode(v: Value): Value
  {
    Serialized(v)
  }

  function Decode(v: Value): Value
  {
    if v.Serialized? then v.payload else v
  }

  /** The keys of an array, in order. */
  function Keys(es: seq<Entry>): (ks: seq<string>)
    ensures |ks| == |es|
    ensures forall i :: 0 <= i < |es| ==> ks[i] == es[i].key
  {
    if es == [] then [] else Keys(es[..|es| - 1]) + [es[|es| - 1].key]
  }

  predicate UniqueKeys(es: seq<Entry>)
  {
    forall i, j :: 0 <= i < j < |es| ==> es[i].key != es[j].key
  }

  /** `$a[$k] = $v`: overwrite in place when the key is present, else append. */
  function Put(es: seq<Entry>, k: string, v: Value): (r: seq<Entry>)
    ensures k in Keys(es) ==> |r| == |es|
    ensures k !in Keys(es) ==> r == es + [Entry(k, v)]
    ensures forall i :: 0 <= i < |es| && es[i].key != k ==> r[i] == es[i]
    ensures k in Keys(es) ==> Entry(k, v) in r
  {
    if es == [] then [Entry(k, v)]
    else if es[0].key == k then [Entry(k, v)] + es[1..]
    else [es[0]] + Put(es[1..], k, v)
  }

  /** `$a[$k] = $v` adds exactly `k` to the keys. */
  lemma {:induction false} PutKeys(es: seq<Entry>, k: string, v: Value)
    ensures forall x :: x in Keys(Put(es, k, v)) <==> x in Keys(es) || x == k
  {
    if es == [] {
      assert Keys(Put(es, k, v)) == [k];
    } else if es[0].key == k {
      PutKeysHere(es, k, v);
    } else {
      PutKeys(es[1..], k, v);
      PutKeysLater(es, k, v);
    }
  }

  /** Overwriting the first entry keeps the keys. */
  lemma PutKeysHere(es: seq<Entry>, k: string, v: Value)
    requires es != [] && es[0].key == k
    ensures forall x :: x in Keys(Put(es, k, v)) <==> x in Keys(es) || x == k
  {
    assert Put(es, k, v) == [Entry(k, v)] + es[1..];
    assert es == [es[0]] + es[1..];
    KeysCons(es[0], es[1..]);
    KeysCons(Entry(k, v), es[1..]);
  }

  /** Passing over the first entry adds to the keys what the rest gains. */
  lemma PutKeysLater(es: seq<Entry>, k: string, v: Value)
    requires es != [] && es[0].key != k
    requires forall x :: x in Keys(Put(es[1..], k, v)) <==> x in Keys(es[1..]) || x == k
    ensures forall x :: x in Keys(Put(es, k, v)) <==> x in Keys(es) || x == k
  {
    assert Put(es, k, v) == [es[0]] + Put(es[1..], k, v);
    assert es == [es[0]] + es[1..];
    KeysCons(es[0], es[1..]);
    KeysCons(es[0], Put(es[1..], k, v));
  }

  /** `$a[$k] = $v` keeps the keys unique. */
  lemma {:induction false} PutUnique(es: seq<Entry>, k: string, v: Value)
    requires UniqueKeys(es)
    ensures UniqueKeys(Put(es, k, v))
  {
    if es != [] && es[0].key != k {
      assert es == [es[0]] + es[1..];
      UniqueCons(es[0], es[1..]);
      PutUnique(es[1..], k, v);
      PutKeys(es[1..], k, v);
      UniqueCons(es[0], Put(es[1..], k, v));
    } else if es != [] {
      assert es == [es[0]] + es[1..];
      UniqueCons(es[0], es[1..]);
      UniqueCons(Entry(k, v), es[1..]);
    }
  }

  lemma UniqueCons(e: Entry, es: seq<Entry>)
    ensures UniqueKeys([e] + es) <==> e.key !in Keys(es) && UniqueKeys(es)
  {
    var r := [e] + es;
    if UniqueKeys(r) {
      forall i, j | 0 <= i < j < |es| ensures es[i].key != es[j].key {
        assert r[i + 1] == es[i] && r[j + 1] == es[j];
      }
      forall i | 0 <= i < |es| ensures Keys(es)[i] != e.key {
        assert r[0].key != r[i + 1].key;
      }
    }
    if e.key !in Keys(es) && UniqueKeys(es) {
      forall i, j | 0 <= i < j < |r| ensures r[i].key != r[j].key {
        if i == 0 {
          assert Keys(es)[j - 1] == r[j].key;
        } else {
          assert r[i] == es[i - 1] && r[j] == es[j - 1];
        }
      }
    }
  }

  lemma KeysCons(e: Entry, es: seq<Entry>)
    ensures Keys([e] + es) == [e.key] + Keys(es)
  {
  }

  /**
   * A value PHP can actually produce: array keys are unique at every level
   * and no class is named "array" (a reserved word).
   */
  predicate WellFormed(v: Value)
  {
    match v
    case Arr(es) => UniqueKeys(es) && forall i :: 0 <= i < |es| ==> WellFormed(es[i].val)
    case Obj(c, _) => c != "array"
    case _ => true
  }
}

/**
 * The parsed JSON values (serde_json::Value) the dispatcher and the bridge
 * exchange. Only the shape matters to the core: whether a value is an object
 * (and then its entries, in the order serde_json's map iterates them) and
 * whether it is Null. Encoding to bytes is a foreign library call and is
 * passed in as functions.
 */
module Json {

  /** A JSON value. An object is the sequence of its entries in iteration order. */
  datatype Value =
    | Null
    | Bool(b: bool)
    | Number(n: int)
    | String(s: string)
    | Array(items: seq<Value>)
    | Object(entries: seq<(string, Value)>)

  /** A serde_json map never holds two entries under one key. */
  predicate UniqueKeys(entries: seq<(string, Value)>)
  {
    forall i, j :: 0 <= i < j < |entries| ==> entries[i].0 != entries[j].0
  }

  /** The names of a sequence of entries. */
  function Names<T>(entries: seq<(string, T)>): (names: set<string>)
    ensures forall i :: 0 <= i < |entries| ==> entries[i].0 in names
    ensures forall n :: n in names ==> exists i :: 0 <= i < |entries| && entries[i].0 == n
  {
    set i | 0 <= i < |entries| :: entries[i].0
  }

  /** Where `key` first occurs in the entries, or their length when it does not occur. */
  function IndexOf(entries: seq<(string, Value)>, key: string): (i: nat)
    ensures i <= |entries|
    ensures i < |entries| ==> entries[i].0 == key
    ensures forall j :: 0 <= j < i ==> entries[j].0 != key
    decreases |entries|
  {
    if entries == [] || entries[0].0 == key then 0 else 1 + IndexOf(entries[1..], key)
  }

  /**
   * Map::insert on a serde_json map held as its entries in insertion order:
   * a key already present keeps its position and takes the new value, a new
   * key goes at the end; every other entry stays where it was.
   */
  function Insert(entries: seq<(string, Value)>, key: string, v: Value): (r: seq<(string, Value)>)
    ensures |r| == if exists i :: 0 <= i < |entries| && entries[i].0 == key then |entries| else |entries| + 1
    ensures forall i :: 0 <= i < |entries| && entries[i].0 != key ==> r[i] == entries[i]
    ensures (forall i :: 0 <= i < |entries| ==> entries[i].0 != key) ==> r == entries + [(key, v)]
    ensures UniqueKeys(entries) ==> forall i :: 0 <= i < |entries| && entries[i].0 == key ==> r[i] == (key, v)
  {
    var i := IndexOf(entries, key);
    if i < |entries| then entries[i := (key, v)] else entries + [(key, v)]
  }

  /** The names of entries with one more at the end. */
  lemma NamesSnoc<T>(entries: seq<(string, T)>, x: (string, T))
    ensures Names(entries + [x]) == Names(entries) + {x.0}
  {
    var all := entries + [x];
    forall n | n in Names(all) ensures n in Names(entries) + {x.0} {
      var i :| 0 <= i < |all| && all[i].0 == n;
      if i < |entries| { assert entries[i] == all[i]; }
    }
    forall n | n in Names(entries) ensures n in Names(all) {
      var i :| 0 <= i < |entries| && entries[i].0 == n;
      assert all[i] == entries[i];
    }
    assert all[|entries|] == x;
  }

  /** After Insert the map holds the key besides its old keys. */
  lemma InsertNames(entries: seq<(string, Value)>, key: string, v: Value)
    ensures Names(Insert(entries, key, v)) == Names(entries) + {key}
  {
    var r, k := Insert(entries, key, v), IndexOf(entries, key);
    if k < |entries| {
      assert r == entries[k := (key, v)];
      forall n | n in Names(r) ensures n in Names(entries) + {key} {
        var i :| 0 <= i < |r| && r[i].0 == n;
        if i != k { assert r[i] == entries[i]; }
      }
      forall n | n in Names(entries) ensures n in Names(r) {
        var i :| 0 <= i < |entries| && entries[i].0 == n;
        assert r[i].0 == n;
      }
    } else {
      assert r == entries + [(key, v)];
      NamesSnoc(entries, (key, v));
    }
  }

  /** Insert keeps every key of a map unique. */
  lemma InsertUnique(entries: seq<(string, Value)>, key: string, v: Value)
    ensures UniqueKeys(entries) ==> UniqueKeys(Insert(entries, key, v))
  {
    var r, k := Insert(entries, key, v), IndexOf(entries, key);
    forall i, j | UniqueKeys(entries) && 0 <= i < j < |r| ensures r[i].0 != r[j].0 {
      if i == k || j == k {
        var o := if i == k then j else i;
        assert o < |entries| && entries[o].0 != key && r[o] == entries[o];
      } else {
        assert r[i] == entries[i] && r[j] == entries[j];
      }
    }
  }

  /**
   * serde_json::to_vec on a Value and on a Map<String, Value>; both are
   * unwrapped where the source calls them, so they are total here. The map
   * is given as its entries in insertion order: with serde_json's default
   * map the serialiser writes the keys sorted, with `preserve_order` it
   * writes them in this order.
   */
  datatype Serde = Serde(toVec: Value -> seq<bv8>, mapToVec: seq<(string, Value)> -> seq<bv8>)
}

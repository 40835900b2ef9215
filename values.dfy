/**
 * JavaScript values as they appear in sheet rows and style descriptors, and
 * records (plain objects) as ordered lists of entries.
 */
module Values {
  import opened Wrappers
  import Text

  /**
   * A JavaScript value stored in a record. A number is held by its `String()`
   * form, which determines it (and its truthiness) exactly. `undefined` is
   * not a value here: it is a key the record does not have.
   */
  datatype Value = Str(s: string) | Num(printed: string) | Bool(b: bool) | Null

  /** JavaScript truthiness: the falsy numbers `0`, `-0` and `NaN` have the `String()` texts `"0"` and `"NaN"`. */
  predicate Truthy(v: Value) {
    match v
    case Str(s) => s != []
    case Num(p) => p != "0" && p != "NaN"
    case Bool(b) => b
    case Null => false
  }

  /** `String(v)`. */
  function ToText(v: Value): string {
    match v
    case Str(s) => s
    case Num(p) => p
    case Bool(b) => if b then "true" else "false"
    case Null => "null"
  }

  /** A plain object: its own entries in `Object.entries` order. */
  type Record = seq<(string, Value)>

  /** `obj[key]`; `None` is `undefined`. */
  function Get(r: Record, key: string): Option<Value> {
    if r == [] then None
    else if r[0].0 == key then Some(r[0].1)
    else Get(r[1..], key)
  }

  /** `obj[key]` is the value of an entry with that key, and `undefined` exactly when no entry has it. */
  lemma {:induction false} GetFound(r: Record, key: string)
    ensures Get(r, key).Some? ==> exists i :: 0 <= i < |r| && r[i] == (key, Get(r, key).value)
    ensures Get(r, key).None? <==> forall i :: 0 <= i < |r| ==> r[i].0 != key
  {
    if r != [] && r[0].0 != key {
      GetFound(r[1..], key);
      if Get(r, key).Some? {
        var i :| 0 <= i < |r| - 1 && r[1..][i] == (key, Get(r, key).value);
        assert r[i + 1] == (key, Get(r, key).value);
      }
      assert forall i :: 1 <= i < |r| ==> r[i] == r[1..][i - 1];
    }
  }

  function Keys(r: Record): (ks: seq<string>)
    ensures |ks| == |r| && forall i :: 0 <= i < |r| ==> ks[i] == r[i].0
  {
    seq(|r|, i requires 0 <= i < |r| => r[i].0)
  }

  /** `Object.keys` lists exactly the keys that read back a defined value. */
  lemma KeysAreDefined(r: Record, key: string)
    ensures key in Keys(r) <==> Get(r, key).Some?
  {
    GetFound(r, key);
    if key in Keys(r) {
      var i :| 0 <= i < |r| && Keys(r)[i] == key;
      assert r[i].0 == key;
    }
  }

  /** The index of the entry with key `key`, if any. */
  function IndexOf(r: Record, key: string): (k: Option<nat>)
    ensures k.Some? ==> k.value < |r| && r[k.value].0 == key
    ensures k.Some? ==> forall i :: 0 <= i < k.value ==> r[i].0 != key
    ensures k.None? ==> forall i :: 0 <= i < |r| ==> r[i].0 != key
  {
    if r == [] then None
    else if r[0].0 == key then Some(0)
    else match IndexOf(r[1..], key)
      case Some(j) => Some(j + 1)
      case None => None
  }

  /**
   * `obj[key] = v`: an existing key keeps its position and takes the new
   * value; a new key is appended.
   */
  function Assign(r: Record, key: string, v: Value): (r': Record)
    ensures IndexOf(r, key).Some? ==> r' == r[IndexOf(r, key).value := (key, v)]
    ensures IndexOf(r, key).None? ==> r' == r + [(key, v)]
  {
    match IndexOf(r, key)
    case Some(i) => r[i := (key, v)]
    case None => r + [(key, v)]
  }

  /** Keys are pairwise distinct, as in every JavaScript object. */
  predicate UniqueKeys(r: Record) {
    forall i, j :: 0 <= i < j < |r| ==> r[i].0 != r[j].0
  }

  /** Assignment keeps the keys distinct and makes `key` read back `v`. */
  lemma AssignGet(r: Record, key: string, v: Value)
    requires UniqueKeys(r)
    ensures UniqueKeys(Assign(r, key, v))
    ensures Get(Assign(r, key, v), key) == Some(v)
    ensures forall k :: k != key ==> Get(Assign(r, key, v), k) == Get(r, k)
  {
    var r' := Assign(r, key, v);
    var idx := IndexOf(r, key);
    var at := if idx.Some? then idx.value else |r|;
    assert r'[at] == (key, v);
    assert forall i :: 0 <= i < |r| && i != at ==> r'[i] == r[i];
    assert UniqueKeys(r');
    GetUnique(r', key);
    forall k | k != key ensures Get(r', k) == Get(r, k) {
      GetUnique(r, k);
      GetUnique(r', k);
      GetFound(r, k);
      GetFound(r', k);
      if Get(r, k).Some? {
        var i :| 0 <= i < |r| && r[i] == (k, Get(r, k).value);
        assert r'[i] == r[i];
      } else {
        assert forall i :: 0 <= i < |r'| ==> r'[i].0 != k;
      }
    }
  }

  /** In a record with distinct keys, `Get` returns the value of the one entry with that key. */
  lemma GetUnique(r: Record, key: string)
    requires UniqueKeys(r)
    ensures forall i :: 0 <= i < |r| && r[i].0 == key ==> Get(r, key) == Some(r[i].1)
  {
    if r != [] {
      assert UniqueKeys(r[1..]);
      GetUnique(r[1..], key);
      forall i | 1 <= i < |r| && r[i].0 == key ensures Get(r, key) == Some(r[i].1) {
        assert r[1..][i - 1] == r[i];
      }
    }
  }
}

/**
 * The Python values that `yaml.safe_load` and `json.loads` hand to the tool,
 * with the three operations the tool applies to them: truthiness (`if not x`),
 * `dict.get(key)` and `str(x)` inside an f-string.
 */
module PyValue {
  import opened Base

  /**
   * A parsed YAML/JSON value; a mapping keeps its keys in insertion order.
   * The loaders build a `dict`, so the mappings they return have distinct
   * keys (a key repeated in the text keeps only its last value).
   */
  datatype Value =
    | Null
    | Bool(b: bool)
    | Int(i: int)
    | Real(r: real)
    | Str(s: string)
    | Arr(items: seq<Value>)
    | Obj(fields: seq<(string, Value)>)

  /** Python truthiness: `None`, `False`, zero and empty containers are false. */
  predicate Truthy(v: Value)
  {
    match v
    case Null => false
    case Bool(b) => b
    case Int(i) => i != 0
    case Real(r) => r != 0.0
    case Str(s) => s != []
    case Arr(items) => items != []
    case Obj(fields) => fields != []
  }

  /** The keys of a mapping, in order. */
  function Keys(fields: seq<(string, Value)>): (ks: seq<string>)
    ensures |ks| == |fields|
    ensures forall i :: 0 <= i < |fields| ==> ks[i] == fields[i].0
  {
    if fields == [] then [] else [fields[0].0] + Keys(fields[1..])
  }

  /** Looking a key up in a mapping: the value stored under the first field with that key. */
  function Lookup(fields: seq<(string, Value)>, key: string): Option<Value>
  {
    if fields == [] then None
    else if fields[0].0 == key then Some(fields[0].1)
    else Lookup(fields[1..], key)
  }

  /** `d.get(key)` on a mapping: `None` when the key is absent. */
  function Get(v: Value, key: string): Value
    requires v.Obj?
  {
    match Lookup(v.fields, key)
    case None => Null
    case Some(x) => x
  }

  /** `d.get(key)` is `None` for a missing key, and otherwise a value stored under the key. */
  lemma GetFacts(v: Value, key: string)
    requires v.Obj?
    ensures key !in Keys(v.fields) ==> Get(v, key) == Null
    ensures key in Keys(v.fields) ==> exists i :: 0 <= i < |v.fields| && v.fields[i] == (key, Get(v, key))
  {
    LookupFound(v.fields, key);
  }

  /**
   * The lookup finds a key exactly when it is among the keys, and then with
   * the value of its first field.
   */
  lemma {:induction false} LookupFound(fields: seq<(string, Value)>, key: string)
    ensures Lookup(fields, key).None? <==> key !in Keys(fields)
    ensures Lookup(fields, key).Some? ==>
              exists i :: 0 <= i < |fields| && fields[i] == (key, Lookup(fields, key).value) &&
                          forall j :: 0 <= j < i ==> fields[j].0 != key
  {
    if fields != [] {
      assert Keys(fields) == [fields[0].0] + Keys(fields[1..]);
      if fields[0].0 != key {
        LookupFound(fields[1..], key);
        if Lookup(fields, key).Some? {
          var i :| 0 <= i < |fields[1..]| && fields[1..][i] == (key, Lookup(fields[1..], key).value) &&
                   forall j :: 0 <= j < i ==> fields[1..][j].0 != key;
          FirstFieldShift(fields, key, Lookup(fields, key).value, i);
        }
      }
    }
  }

  /** No key occurs twice among the fields, as in every `dict`. */
  predicate DistinctKeys(fields: seq<(string, Value)>)
  {
    forall i, j :: 0 <= i < j < |fields| ==> fields[i].0 != fields[j].0
  }

  /** With distinct keys, the lookup returns the one field stored under the key. */
  lemma LookupDistinct(fields: seq<(string, Value)>, key: string, i: nat)
    requires DistinctKeys(fields) && i < |fields| && fields[i].0 == key
    ensures Lookup(fields, key) == Some(fields[i].1)
  {
    LookupFound(fields, key);
    assert key in Keys(fields) by {
      assert Keys(fields)[i] == key;
    }
    var k :| 0 <= k < |fields| && fields[k] == (key, Lookup(fields, key).value) &&
             forall j :: 0 <= j < k ==> fields[j].0 != key;
    assert k == i;
  }

  /** A first field with `key` in the tail, behind a head with another key, is the first in the whole list. */
  lemma FirstFieldShift(fields: seq<(string, Value)>, key: string, v: Value, i: nat)
    requires fields != [] && fields[0].0 != key
    requires i < |fields| - 1 && fields[1..][i] == (key, v) && forall j :: 0 <= j < i ==> fields[1..][j].0 != key
    ensures fields[i + 1] == (key, v) && forall j :: 0 <= j < i + 1 ==> fields[j].0 != key
  {
    forall j | 1 <= j < i + 1 ensures fields[j].0 != key {
      assert fields[j] == fields[1..][j - 1];
    }
  }

  /** `str(n)` for an integer. */
  function IntToString(n: int): (s: string)
    ensures s != []
    decreases if n < 0 then -n + 1 else n
  {
    if n < 0 then "-" + IntToString(-n)
    else if n < 10 then [DigitChar(n)]
    else IntToString(n / 10) + [DigitChar(n % 10)]
  }

  function DigitChar(d: int): char
    requires 0 <= d < 10
  {
    ['0', '1', '2', '3', '4', '5', '6', '7', '8', '9'][d]
  }

  /**
   * `str(v)` as an f-string renders it. Strings render as themselves; the
   * rendering of floats and containers (`repr`) is supplied by `repr`.
   */
  function Render(v: Value, repr: Value -> string): (s: string)
    ensures v.Str? ==> s == v.s
    ensures v.Null? ==> s == "None"
    ensures v == Bool(true) ==> s == "True"
    ensures v == Bool(false) ==> s == "False"
  {
    match v
    case Null => "None"
    case Bool(b) => if b then "True" else "False"
    case Int(i) => IntToString(i)
    case Str(s) => s
    case _ => repr(v)
  }
}

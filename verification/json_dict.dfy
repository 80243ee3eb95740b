/** JSON values as `json.load` gives them, with objects as Python dicts:
    an ordered list of entries whose keys are distinct, where assigning to
    a present key replaces its value in place and assigning to a new key
    appends it. */
module JsonDict {
  import opened Wrappers
  import opened PyText

  datatype Json =
    | JNull
    | JBool(b: bool)
    | JNum(n: int)
    | JStr(s: string)
    | JArr(items: seq<Json>)
    | JObj(fields: seq<(string, Json)>)

  type Dict = seq<(string, Json)>

  /** The keys of a dict. */
  function Keys(d: Dict): (r: set<string>)
    ensures forall k :: k in r <==> exists i :: 0 <= i < |d| && d[i].0 == k
  {
    if |d| == 0 then {}
    else
      assert forall i :: 1 <= i < |d| ==> d[i] == d[1..][i - 1];
      {d[0].0} + Keys(d[1..])
  }

  predicate DistinctKeys(d: Dict) {
    forall i, j :: 0 <= i < j < |d| ==> d[i].0 != d[j].0
  }

  /** A value as `json.load` builds it: distinct keys in every object, at
      every level. */
  predicate WellFormed(j: Json)
    decreases j
  {
    match j
    case JObj(fs) => DistinctKeys(fs) && forall i :: 0 <= i < |fs| ==> WellFormed(fs[i].1)
    case _ => true
  }

  /** The position of the first entry with key `k`. */
  function IndexOf(d: Dict, k: string): (i: nat)
    requires k in Keys(d)
    ensures i < |d| && d[i].0 == k
    ensures forall j :: 0 <= j < i ==> d[j].0 != k
  {
    if d[0].0 == k then 0
    else
      assert forall j :: 1 <= j < |d| ==> d[j] == d[1..][j - 1];
      1 + IndexOf(d[1..], k)
  }

  /** `d.get(k)`. */
  function Lookup(d: Dict, k: string): (r: Option<Json>)
    ensures r.Some? <==> k in Keys(d)
    ensures r.Some? ==> exists i :: 0 <= i < |d| && d[i] == (k, r.value)
  {
    if k in Keys(d) then Some(d[IndexOf(d, k)].1) else None
  }

  /** With distinct keys, every entry is what a lookup of its key finds. */
  lemma LookupEntry(d: Dict, i: nat)
    requires DistinctKeys(d) && i < |d|
    ensures Lookup(d, d[i].0) == Some(d[i].1)
  {
    var j := IndexOf(d, d[i].0);
    assert !(j < i) && !(i < j);
  }

  /** `d[k] = v`: the value of a present key is replaced where it stands,
      a new key goes at the end. */
  function Put(d: Dict, k: string, v: Json): (r: Dict)
    ensures k in Keys(d) ==> |r| == |d| && forall i :: 0 <= i < |d| ==> r[i].0 == d[i].0
    ensures k !in Keys(d) ==> r == d + [(k, v)]
  {
    if k in Keys(d) then d[IndexOf(d, k) := (k, v)] else d + [(k, v)]
  }

  /** After `d[k] = v`, `k` holds `v` and every other key what it held. */
  lemma PutLookup(d: Dict, k: string, v: Json, k': string)
    ensures Lookup(Put(d, k, v), k') == if k' == k then Some(v) else Lookup(d, k')
  {
    var r := Put(d, k, v);
    if k in Keys(d) {
      if k' in Keys(d) {
        assert k' in Keys(r) by { var i := IndexOf(d, k'); assert r[i].0 == k'; }
        assert IndexOf(r, k') == IndexOf(d, k') by {
          var a, b := IndexOf(r, k'), IndexOf(d, k');
          assert r[b].0 == k' && d[a].0 == k';
          assert !(a < b) && !(b < a);
        }
      } else {
        assert k' !in Keys(r);
      }
    } else {
      if k' in Keys(d) {
        assert k' in Keys(r) by { var i := IndexOf(d, k'); assert r[i].0 == k'; }
        assert IndexOf(r, k') == IndexOf(d, k') by {
          var a, b := IndexOf(r, k'), IndexOf(d, k');
          assert r[b].0 == k';
          assert !(a < b) && !(b < a);
        }
      } else if k' == k {
        assert r[|d|].0 == k;
        assert IndexOf(r, k) == |d|;
      } else {
        assert k' !in Keys(r);
      }
    }
  }

  /** Assigning adds the key and no other. */
  lemma PutKeys(d: Dict, k: string, v: Json)
    ensures Keys(Put(d, k, v)) == Keys(d) + {k}
  {
    var r := Put(d, k, v);
    forall k' ensures k' in Keys(r) <==> k' in Keys(d) + {k} {
      PutLookup(d, k, v, k');
    }
  }

  /** Assigning never creates a second entry for a key. */
  lemma PutDistinct(d: Dict, k: string, v: Json)
    requires DistinctKeys(d)
    ensures DistinctKeys(Put(d, k, v))
  {
    var r := Put(d, k, v);
    if k !in Keys(d) {
      assert forall i :: 0 <= i < |d| ==> r[i] == d[i];
    }
  }

  /** Assigning a key the value it already has changes nothing. */
  lemma PutSame(d: Dict, k: string, v: Json)
    requires Lookup(d, k) == Some(v)
    ensures Put(d, k, v) == d
  {
  }
  // ---------------------------------------------------------------
  // Python's `in`, `x[k]` and `x[k] = v` on JSON values
  // (modelled on every value they can meet, including those where they
  // raise `TypeError`)
  // ---------------------------------------------------------------

  /** `key in x`: a dict's keys, a list's elements, a string's
      substrings; a `TypeError` on a number, a boolean or `None`. */
  function Contains(x: Json, key: string): (r: Result<bool>)
    ensures x.JObj? ==> r == Ok(key in Keys(x.fields))
    ensures (x.JNull? || x.JBool? || x.JNum?) ==> r.Err? && r.error.TypeError?
  {
    match x
    case JObj(fs) => Ok(key in Keys(fs))
    case JArr(items) => Ok(JStr(key) in items)
    case JStr(s) => Ok(IsSubstring(key, s))
    case _ => Err(TypeError("argument of type is not iterable"))
  }

  /** `x[key]`, reading. */
  function GetItem(x: Json, key: string): (r: Result<Json>)
    ensures r.Ok? <==> x.JObj? && key in Keys(x.fields)
    ensures r.Ok? ==> r.value == Lookup(x.fields, key).value
  {
    match x
    case JObj(fs) => if key in Keys(fs) then Ok(Lookup(fs, key).value) else Err(KeyError(key))
    case JArr(_) => Err(TypeError("list indices must be integers or slices, not str"))
    case JStr(_) => Err(TypeError("string indices must be integers"))
    case _ => Err(TypeError("object is not subscriptable"))
  }

  /** `x[key] = v`. */
  function SetItem(x: Json, key: string, v: Json): (r: Result<Json>)
    ensures r.Ok? <==> x.JObj?
    ensures r.Ok? ==> r.value == JObj(Put(x.fields, key, v))
  {
    match x
    case JObj(fs) => Ok(JObj(Put(fs, key, v)))
    case _ => Err(TypeError("object does not support item assignment"))
  }

  /** `x.get(key, default)`: only dicts have `get`. */
  function GetOr(x: Json, key: string, default: Json): (r: Result<Json>)
    ensures r.Ok? <==> x.JObj?
    ensures x.JObj? && key in Keys(x.fields) ==> r == Ok(Lookup(x.fields, key).value)
    ensures x.JObj? && key !in Keys(x.fields) ==> r == Ok(default)
  {
    match x
    case JObj(fs) => Ok(Lookup(fs, key).GetOr(default))
    case _ => Err(AttributeError("object has no attribute 'get'"))
  }

  /** Python truthiness: `None`, `False`, `0`, `""`, `[]` and `{}` are
      false, everything else true. */
  predicate Truthy(x: Json) {
    match x
    case JNull => false
    case JBool(b) => b
    case JNum(n) => n != 0
    case JStr(s) => s != ""
    case JArr(items) => items != []
    case JObj(fs) => fs != []
  }
}

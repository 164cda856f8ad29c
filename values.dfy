/** The dynamic values the tools read from YAML and JSON, with the Python
    dictionary operations and coercions the tools apply to them. */
module Values {
  import opened Base
  import opened Text

  /** A YAML or JSON value. Objects keep their entries in insertion order, as
      Python dictionaries do. Floating-point numbers are not modelled. */
  datatype Value =
    | VNull
    | VBool(b: bool)
    | VInt(i: int)
    | VStr(s: string)
    | VList(items: seq<Value>)
    | VObj(fields: seq<(string, Value)>)

  type Fields = seq<(string, Value)>

  predicate HasKey(f: Fields, k: string) {
    exists i | 0 <= i < |f| :: f[i].0 == k
  }

  /** `d.get(k)` on a dictionary: the value under the first entry with key `k`. */
  function Lookup(f: Fields, k: string): (r: Option<Value>)
    ensures r.Some? <==> HasKey(f, k)
    ensures r.Some? ==> exists i | 0 <= i < |f| :: f[i] == (k, r.value)
  {
    if f == [] then None
    else if f[0].0 == k then Some(f[0].1)
    else
      var r := Lookup(f[1..], k);
      assert forall i | 1 <= i < |f| :: f[i] == f[1..][i - 1];
      r
  }

  /** `d[k] = v` on a dictionary: the entry for `k` keeps its place, a new key
      goes to the end. */
  function Put(f: Fields, k: string, v: Value): (r: Fields)
    ensures |r| == |f| || |r| == |f| + 1
  {
    if f == [] then [(k, v)]
    else if f[0].0 == k then [(k, v)] + f[1..]
    else [f[0]] + Put(f[1..], k, v)
  }

  /** After `d[k] = v`, `k` reads `v` and every other key reads as before. */
  lemma {:induction false} LookupPut(f: Fields, k: string, v: Value, k': string)
    ensures Lookup(Put(f, k, v), k') == if k' == k then Some(v) else Lookup(f, k')
  {
    if f != [] && f[0].0 != k {
      LookupPut(f[1..], k, v, k');
    }
  }

  /** Writing a key with the value it already holds changes nothing. */
  lemma {:induction false} PutExisting(f: Fields, k: string, v: Value)
    requires Lookup(f, k) == Some(v)
    ensures Put(f, k, v) == f
  {
    if f[0].0 != k {
      PutExisting(f[1..], k, v);
    }
  }

  /** The dictionary as a Dafny map from key to value. */
  function ToMap(f: Fields): (m: map<string, Value>)
    ensures forall k :: k in m <==> HasKey(f, k)
    ensures forall k | k in m :: Lookup(f, k) == Some(m[k])
  {
    if f == [] then map[]
    else
      var m := ToMap(f[1..])[f[0].0 := f[0].1];
      assert forall k :: HasKey(f, k) <==> k == f[0].0 || HasKey(f[1..], k) by {
        forall k ensures HasKey(f, k) <==> k == f[0].0 || HasKey(f[1..], k) {
          if HasKey(f[1..], k) {
            var i :| 0 <= i < |f[1..]| && f[1..][i].0 == k;
            assert f[i + 1].0 == k;
          }
          if HasKey(f, k) && k != f[0].0 {
            var i :| 0 <= i < |f| && f[i].0 == k;
            assert f[1..][i - 1].0 == k;
          }
        }
      }
      m
  }

  /** Python truthiness. */
  predicate Truthy(v: Value) {
    match v
    case VNull => false
    case VBool(b) => b
    case VInt(i) => i != 0
    case VStr(s) => s != []
    case VList(items) => items != []
    case VObj(fields) => fields != []
  }

  /** `v or {}`. */
  function OrEmpty(v: Value): (r: Value)
    ensures Truthy(v) ==> r == v
    ensures !Truthy(v) ==> r == VObj([])
  {
    if Truthy(v) then v else VObj([])
  }

  /** Python's `int(v)`: `None` for the TypeError or ValueError it raises. */
  function AsInt(v: Value): Option<int> {
    match v
    case VBool(b) => Some(if b then 1 else 0)
    case VInt(i) => Some(i)
    case VStr(s) => ParseInt(s)
    case _ => None
  }

  /** Python's `str(v)`. Lists and mappings are rendered by a fixed stand-in
      text instead of Python's repr. */
  function PyStr(v: Value): string {
    match v
    case VNull => "None"
    case VBool(b) => if b then "True" else "False"
    case VInt(i) => IntToString(i)
    case VStr(s) => s
    case VList(_) => "[...]"
    case VObj(_) => "{...}"
  }

  /** The items of `for x in v`: a list yields its items, a dictionary its
      keys and a string its characters; `None` for the TypeError Python raises
      on a value that is not iterable. */
  function Iterate(v: Value): (r: Option<seq<Value>>)
    ensures v.VList? ==> r == Some(v.items)
    ensures r.None? <==> !(v.VList? || v.VObj? || v.VStr?)
  {
    match v
    case VList(items) => Some(items)
    case VObj(fields) => Some(seq(|fields|, i requires 0 <= i < |fields| => VStr(fields[i].0)))
    case VStr(s) => Some(seq(|s|, i requires 0 <= i < |s| => VStr([s[i]])))
    case _ => None
  }

  /** Python's `key in v` for a string key: a key of a dictionary, an item of a
      list, a substring of a string; on any other value Python raises
      TypeError. */
  function PyIn(key: string, v: Value): Result<bool> {
    match v
    case VObj(f) => Ok(HasKey(f, key))
    case VList(items) => Ok(VStr(key) in items)
    case VStr(s) => Ok(Contains(s, key))
    case _ => Err(Raise(BadShape))
  }

  /** `v.get(k, default)`; on a value that is not a dictionary Python raises
      AttributeError. */
  function Get(v: Value, k: string, default: Value): (r: Result<Value>)
    ensures r.Ok? <==> v.VObj?
    ensures v.VObj? ==> r.value == Lookup(v.fields, k).GetOr(default)
  {
    if v.VObj? then Ok(Lookup(v.fields, k).GetOr(default)) else Err(Raise(BadShape))
  }

  /** `int(str(v))` succeeds on every integer: the stringified value of a
      configuration integer converts back to the same integer. */
  lemma AsIntOfStr(i: int)
    ensures AsInt(VStr(PyStr(VInt(i)))) == Some(i)
  {
    ParseIntToString(i);
  }
}

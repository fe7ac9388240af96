/**
  Parsed JSON documents as the metadata helper sees them after `json.load`, and
  the handful of Python operations it applies to them: `k in c`, `c[k]`,
  `c[k] = v`, `c[0]`, iteration, `==` and `str()`.

  A Python dict keeps its insertion order, so an object is an ordered list of
  members rather than a `map`: the order is observable (it decides the order in
  which schema warnings appear). Lookup takes the first member with a key,
  assignment replaces that member in place or appends a new one, exactly as a
  dict does. Python's exceptions become `Err` values.
 */
module PyJson {

  datatype Option<+T> = None | Some(value: T)

  /** The Python exceptions the helper can raise, by kind. */
  datatype Error =
    | KeyError(key: string)
    | IndexError
    | TypeError(what: string)
    | ValueError(text: string)
    | AttributeError(what: string)
    | RecursionError
    | UnboundSchema
    | ObjectTypeUnknown
    | FileNotFound(path: string)
    | JsonDecodeError(path: string)

  datatype Result<+T> = Ok(value: T) | Err(error: Error) {
    predicate IsFailure() {
      Err?
    }

    function PropagateFailure<U>(): Result<U>
      requires Err?
    {
      Err(error)
    }

    function Extract(): T
      requires Ok?
    {
      value
    }
  }

  /** A JSON value; `JNull` also stands for Python's `None`. */
  datatype Json =
    | JNull
    | JBool(b: bool)
    | JInt(i: int)
    | JFloat(r: real)
    | JStr(s: string)
    | JArr(items: seq<Json>)
    | JObj(members: seq<(string, Json)>)

  type Members = seq<(string, Json)>

  /* ---------------- dict members ---------------- */

  function Keys(ms: Members): set<string>
  {
    if |ms| == 0 then {} else {ms[0].0} + Keys(ms[1..])
  }

  lemma KeysOfOne(k: string, v: Json)
    ensures Keys([(k, v)]) == {k}
  {
    var ms: Members := [(k, v)];
    assert ms[1..] == [];
  }

  lemma KeysOfTwo(k1: string, v1: Json, k2: string, v2: Json)
    ensures Keys([(k1, v1), (k2, v2)]) == {k1, k2}
  {
    var ms: Members := [(k1, v1), (k2, v2)];
    assert ms[1..] == [(k2, v2)];
    KeysOfOne(k2, v2);
  }

  ghost predicate DistinctKeys(ms: Members)
  {
    forall i, j :: 0 <= i < j < |ms| ==> ms[i].0 != ms[j].0
  }

  /** `d.get(k)` on a dict: the value of the first member with key `k`. */
  function Get(ms: Members, k: string): (r: Option<Json>)
    ensures r.Some? <==> k in Keys(ms)
  {
    if |ms| == 0 then None
    else if ms[0].0 == k then Some(ms[0].1)
    else Get(ms[1..], k)
  }

  /** What `Get` returns is the value of a member with that key. */
  lemma {:induction false} GetMember(ms: Members, k: string)
    requires Get(ms, k).Some?
    ensures exists i :: 0 <= i < |ms| && ms[i] == (k, Get(ms, k).value)
  {
    if ms[0].0 != k {
      GetMember(ms[1..], k);
      var i :| 0 <= i < |ms[1..]| && ms[1..][i] == (k, Get(ms, k).value);
      assert ms[i + 1] == (k, Get(ms, k).value);
    }
  }

  /** `d[k] = v` on a dict: replace the member in place, or append it. */
  function Set(ms: Members, k: string, v: Json): (r: Members)
    ensures Get(r, k) == Some(v)
    ensures forall k' :: k' != k ==> Get(r, k') == Get(ms, k')
    ensures Keys(r) == Keys(ms) + {k}
    ensures k in Keys(ms) ==> |r| == |ms|
    ensures k !in Keys(ms) ==> r == ms + [(k, v)]
  {
    if |ms| == 0 then [(k, v)]
    else if ms[0].0 == k then [(k, v)] + ms[1..]
    else [ms[0]] + Set(ms[1..], k, v)
  }

  /** Assigning the value a key already holds changes nothing. */
  lemma {:induction false} SetExisting(ms: Members, k: string, v: Json)
    requires Get(ms, k) == Some(v)
    ensures Set(ms, k, v) == ms
  {
    if |ms| > 0 && ms[0].0 != k {
      SetExisting(ms[1..], k, v);
    }
  }

  /** Assigning a key keeps the keys distinct. */
  lemma {:induction false} SetKeepsDistinct(ms: Members, k: string, v: Json)
    requires DistinctKeys(ms)
    ensures DistinctKeys(Set(ms, k, v))
  {
    if |ms| > 0 && ms[0].0 != k {
      assert DistinctKeys(ms[1..]) by {
        forall i, j | 0 <= i < j < |ms[1..]|
          ensures ms[1..][i].0 != ms[1..][j].0
        {
          assert ms[1..][i] == ms[i + 1] && ms[1..][j] == ms[j + 1];
        }
      }
      SetKeepsDistinct(ms[1..], k, v);
      var t := Set(ms[1..], k, v);
      KeysMembers(ms[1..]);
      KeysMembers(t);
      forall j | 0 <= j < |t| ensures t[j].0 != ms[0].0 {
        assert t[j].0 in Keys(t);
        if t[j].0 == k {
          assert k != ms[0].0;
        } else {
          var i :| 0 <= i < |ms[1..]| && ms[1..][i].0 == t[j].0;
          assert ms[1..][i] == ms[i + 1];
        }
      }
    }
  }

  /** The keys of a member list are exactly the first components of its members. */
  lemma {:induction false} KeysMembers(ms: Members)
    ensures forall k :: k in Keys(ms) <==> exists i :: 0 <= i < |ms| && ms[i].0 == k
  {
    if |ms| > 0 {
      KeysMembers(ms[1..]);
      forall k | k in Keys(ms) ensures exists i :: 0 <= i < |ms| && ms[i].0 == k {
        if k != ms[0].0 {
          assert k in Keys(ms[1..]);
          var i :| 0 <= i < |ms[1..]| && ms[1..][i].0 == k;
          assert ms[i + 1].0 == k;
        }
      }
      forall k | exists i :: 0 <= i < |ms| && ms[i].0 == k ensures k in Keys(ms) {
        var i :| 0 <= i < |ms| && ms[i].0 == k;
        if i > 0 {
          assert ms[1..][i - 1].0 == k;
        }
      }
    }
  }

  /** With distinct keys, `Get` returns the value of the member that carries the key. */
  lemma {:induction false} GetDistinct(ms: Members, j: int)
    requires DistinctKeys(ms)
    requires 0 <= j < |ms|
    ensures Get(ms, ms[j].0) == Some(ms[j].1)
  {
    if j > 0 {
      assert ms[0].0 != ms[j].0;
      assert DistinctKeys(ms[1..]) by {
        forall a, b | 0 <= a < b < |ms[1..]|
          ensures ms[1..][a].0 != ms[1..][b].0
        {
          assert ms[1..][a] == ms[a + 1] && ms[1..][b] == ms[b + 1];
        }
      }
      GetDistinct(ms[1..], j - 1);
      assert ms[1..][j - 1] == ms[j];
    }
  }

  /* ---------------- Python operators on JSON values ---------------- */

  predicate IsSubstring(needle: string, hay: string)
    decreases |hay|
  {
    |needle| <= |hay| && (hay[..|needle|] == needle || IsSubstring(needle, hay[1..]))
  }

  /** `k in c` for a string `k`: key test on a dict, element test on a list,
      substring test on a string, TypeError otherwise. */
  function Contains(c: Json, k: string): (r: Result<bool>)
    ensures r.Ok? <==> (c.JObj? || c.JArr? || c.JStr?)
    ensures c.JObj? ==> r == Ok(k in Keys(c.members))
  {
    match c
    case JObj(ms) => Ok(k in Keys(ms))
    case JArr(xs) => Ok(JStr(k) in xs)
    case JStr(s) => Ok(IsSubstring(k, s))
    case _ => Err(TypeError("argument is not iterable"))
  }

  /** `c[k]` for a string `k`: only a dict holding `k` answers. */
  function Index(c: Json, k: string): (r: Result<Json>)
    ensures r.Ok? <==> c.JObj? && k in Keys(c.members)
    ensures r.Ok? ==> Get(c.members, k) == Some(r.value)
  {
    match c
    case JObj(ms) =>
      (match Get(ms, k)
       case Some(v) => Ok(v)
       case None => Err(KeyError(k)))
    case JArr(_) => Err(TypeError("list indices must be integers"))
    case JStr(_) => Err(TypeError("string indices must be integers"))
    case _ => Err(TypeError("object is not subscriptable"))
  }

  /** `c[k] = v`: only a dict accepts it, and only key `k` changes. */
  function Assign(c: Json, k: string, v: Json): (r: Result<Json>)
    ensures r.Ok? <==> c.JObj?
    ensures r.Ok? ==> r.value.JObj? && Get(r.value.members, k) == Some(v)
    ensures r.Ok? ==> forall k' :: k' != k ==> Get(r.value.members, k') == Get(c.members, k')
  {
    match c
    case JObj(ms) => Ok(JObj(Set(ms, k, v)))
    case _ => Err(TypeError("object does not support item assignment"))
  }

  /** `d.get(k, default)` on a dict. */
  function GetOr(c: Json, k: string, default: Json): (r: Json)
    requires c.JObj?
    ensures k !in Keys(c.members) ==> r == default
    ensures k in Keys(c.members) ==> Some(r) == Get(c.members, k)
  {
    match Get(c.members, k)
    case Some(v) => v
    case None => default
  }

  /** `for x in c`: a list yields its elements, a dict its keys, a string its characters. */
  function Iter(c: Json): (r: Result<seq<Json>>)
    ensures r.Ok? <==> (c.JObj? || c.JArr? || c.JStr?)
    ensures c.JArr? ==> r == Ok(c.items)
    ensures c.JObj? ==> r.Ok? && |r.value| == |c.members|
    ensures c.JObj? ==> forall i :: 0 <= i < |c.members| ==> r.value[i] == JStr(c.members[i].0)
    ensures c.JStr? ==> r.Ok? && |r.value| == |c.s|
    ensures c.JStr? ==> forall i :: 0 <= i < |c.s| ==> r.value[i] == JStr([c.s[i]])
  {
    match c
    case JArr(xs) => Ok(xs)
    case JObj(ms) => Ok(seq(|ms|, i requires 0 <= i < |ms| => JStr(ms[i].0)))
    case JStr(s) => Ok(seq(|s|, i requires 0 <= i < |s| => JStr([s[i]])))
    case _ => Err(TypeError("object is not iterable"))
  }

  /** `c[0]`. */
  function First(c: Json): (r: Result<Json>)
    ensures r.Ok? <==> (c.JArr? && |c.items| > 0) || (c.JStr? && |c.s| > 0)
    ensures c.JArr? && |c.items| > 0 ==> r == Ok(c.items[0])
  {
    match c
    case JArr(xs) => if |xs| > 0 then Ok(xs[0]) else Err(IndexError)
    case JStr(s) => if |s| > 0 then Ok(JStr([s[0]])) else Err(IndexError)
    case JObj(_) => Err(KeyError("0"))
    case _ => Err(TypeError("object is not subscriptable"))
  }

  predicate IsNumber(v: Json)
  {
    v.JInt? || v.JFloat? || v.JBool?
  }

  function NumValue(v: Json): real
    requires IsNumber(v)
  {
    match v
    case JInt(i) => i as real
    case JFloat(r) => r
    case JBool(b) => if b then 1.0 else 0.0
  }

  /** Python `==` on JSON values: numbers (bool included) compare by value, anything else structurally. */
  predicate PyEq(a: Json, b: Json)
  {
    if IsNumber(a) && IsNumber(b) then NumValue(a) == NumValue(b) else a == b
  }

  /* ---------------- files ---------------- */

  /** The files the helper reads and writes, by path, as parsed documents. */
  type FileSystem = map<string, Json>

  /** `json.load(open(path))`. */
  function ReadJson(fs: FileSystem, path: string): (r: Result<Json>)
    ensures r.Ok? <==> path in fs
    ensures r.Ok? ==> r.value == fs[path]
    ensures r.Err? ==> r.error == FileNotFound(path)
  {
    if path in fs then Ok(fs[path]) else Err(FileNotFound(path))
  }

  /* ---------------- str() ---------------- */

  /** The values whose `str()` the helper formats into paths. */
  predicate Printable(v: Json)
  {
    v.JNull? || v.JBool? || v.JInt? || v.JStr?
  }

  function DigitChar(d: int): (c: char)
    requires 0 <= d < 10
    ensures '0' <= c <= '9' && c as int - '0' as int == d
  {
    ('0' as int + d) as char
  }

  function NatToString(n: nat): (r: string)
    ensures |r| > 0
    ensures forall i :: 0 <= i < |r| ==> '0' <= r[i] <= '9'
    ensures r[0] == '0' <==> n == 0
    ensures n == 0 ==> r == "0"
    decreases n
  {
    if n < 10 then [DigitChar(n)] else NatToString(n / 10) + [DigitChar(n % 10)]
  }

  /** `str(i)` for an int: decimal digits with a leading `-` when negative. */
  function IntToString(i: int): (r: string)
    ensures |r| > 0
    ensures i < 0 <==> r[0] == '-'
    ensures i < 0 ==> |r| >= 2
    ensures forall k :: (if i < 0 then 1 else 0) <= k < |r| ==> '0' <= r[k] <= '9'
    ensures r[if i < 0 then 1 else 0] == '0' ==> r == "0"
  {
    if i < 0 then "-" + NatToString(-i) else NatToString(i)
  }

  /** `str(v)`; `str(None)` is the literal "None". */
  function Str(v: Json): (r: string)
    requires Printable(v)
    ensures v.JNull? ==> r == "None"
    ensures v.JStr? ==> r == v.s
  {
    match v
    case JNull => "None"
    case JBool(b) => if b then "True" else "False"
    case JInt(i) => IntToString(i)
    case JStr(s) => s
  }
}

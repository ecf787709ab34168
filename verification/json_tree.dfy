/**
  The parsed document tree the engine works on (what `json.loads` / `yaml.safe_load`
  hand over), Python's insertion-ordered dict operations on it, and the Python
  evaluation rules (`in`, `[]`, `.get`, iteration, truthiness, `==`) that the
  engine's code relies on, including where Python raises.
*/
module JsonTree {
  import opened Text

  datatype Option<+T> = None | Some(value: T)

  /** Outcome of evaluating a Python expression that may raise (AttributeError, TypeError, KeyError). */
  datatype Py<+T> = Ok(value: T) | Raises

  /** Outcome of an operation that reports a domain error. */
  datatype Result<+T, +E> = Success(value: T) | Failure(error: E)

  datatype Json =
    | JNull
    | JBool(b: bool)
    | JNum(n: int)
    | JStr(s: string)
    | JArr(items: seq<Json>)
    | JObj(members: seq<Member>)

  /** One key/value pair of a mapping; a mapping keeps its members in insertion order. */
  datatype Member = Member(key: string, value: Json)

  type Dict = seq<Member>

  function Keys(d: Dict): (ks: seq<string>)
    ensures |ks| == |d|
    ensures forall i :: 0 <= i < |d| ==> ks[i] == d[i].key
  {
    seq(|d|, i requires 0 <= i < |d| => d[i].key)
  }

  /** `d.get(k)`, distinguishing a missing key (None) from a stored value. */
  function Lookup(d: Dict, k: string): Option<Json>
  {
    if d == [] then None
    else if d[0].key == k then Some(d[0].value)
    else Lookup(d[1..], k)
  }

  predicate HasKey(d: Dict, k: string)
  {
    Lookup(d, k).Some?
  }

  /** Every mapping in the tree has distinct keys, as every Python dict does. */
  predicate AllUnique(j: Json)
    decreases j
  {
    match j
    case JObj(ms) => UniqueKeys(ms) && forall i :: 0 <= i < |ms| ==> AllUnique(ms[i].value)
    case JArr(xs) => forall i :: 0 <= i < |xs| ==> AllUnique(xs[i])
    case _ => true
  }

  /** `d.get(k, default)`. */
  function GetOr(d: Dict, k: string, default: Json): Json
  {
    if HasKey(d, k) then Lookup(d, k).value else default
  }

  /** `d[k] = v`: replaces the value in place, or appends a new member. */
  function Put(d: Dict, k: string, v: Json): Dict
  {
    if d == [] then [Member(k, v)]
    else if d[0].key == k then [Member(k, v)] + d[1..]
    else [d[0]] + Put(d[1..], k, v)
  }

  /** `del d[k]` (a no-op when `k` is absent). */
  function Remove(d: Dict, k: string): Dict
  {
    if d == [] then []
    else if d[0].key == k then d[1..]
    else [d[0]] + Remove(d[1..], k)
  }

  predicate UniqueKeys(d: Dict)
  {
    forall i, j :: 0 <= i < j < |d| ==> d[i].key != d[j].key
  }

  lemma {:induction false} LookupPut(d: Dict, k: string, v: Json, k2: string)
    ensures Lookup(Put(d, k, v), k2) == if k2 == k then Some(v) else Lookup(d, k2)
  {
    if d != [] && d[0].key != k {
      LookupPut(d[1..], k, v, k2);
    }
  }

  lemma {:induction false} LookupRemove(d: Dict, k: string, k2: string)
    requires UniqueKeys(d)
    ensures Lookup(Remove(d, k), k2) == if k2 == k then None else Lookup(d, k2)
  {
    if d != [] {
      if d[0].key == k {
        if k2 == k {
          LookupAbsent(d[1..], k);
        }
      } else {
        LookupRemove(d[1..], k, k2);
      }
    }
  }

  /** A key that no member carries is not found. */
  lemma {:induction false} LookupAbsent(d: Dict, k: string)
    requires forall i :: 0 <= i < |d| ==> d[i].key != k
    ensures Lookup(d, k) == None
  {
    if d != [] {
      LookupAbsent(d[1..], k);
    }
  }

  /** What Lookup finds is a member of the mapping. */
  lemma {:induction false} LookupFound(d: Dict, k: string)
    requires HasKey(d, k)
    ensures exists i :: 0 <= i < |d| && d[i] == Member(k, Lookup(d, k).value)
  {
    if d[0].key != k {
      LookupFound(d[1..], k);
      var i :| 0 <= i < |d[1..]| && d[1..][i] == Member(k, Lookup(d, k).value);
      assert d[i + 1] == d[1..][i];
    } else {
      assert d[0] == Member(k, Lookup(d, k).value);
    }
  }

  /** In a mapping with unique keys, every member is found by its key. */
  lemma {:induction false} LookupMember(d: Dict, i: nat)
    requires UniqueKeys(d) && i < |d|
    ensures Lookup(d, d[i].key) == Some(d[i].value)
  {
    if i > 0 {
      assert d[0].key != d[i].key;
      LookupMember(d[1..], i - 1);
    }
  }

  lemma {:induction false} PutKeys(d: Dict, k: string, v: Json)
    ensures HasKey(d, k) ==> Keys(Put(d, k, v)) == Keys(d)
    ensures !HasKey(d, k) ==> Put(d, k, v) == d + [Member(k, v)]
  {
    if d != [] && d[0].key != k {
      PutKeys(d[1..], k, v);
      assert d == [d[0]] + d[1..];
      if HasKey(d, k) {
        assert Keys(Put(d, k, v)) == [d[0].key] + Keys(Put(d[1..], k, v));
        assert Keys(d) == [d[0].key] + Keys(d[1..]);
      }
    } else if d != [] {
      assert Keys(Put(d, k, v)) == [k] + Keys(d[1..]);
      assert Keys(d) == [k] + Keys(d[1..]);
    }
  }

  lemma {:induction false} PutUnique(d: Dict, k: string, v: Json)
    requires UniqueKeys(d)
    ensures UniqueKeys(Put(d, k, v))
    ensures |Put(d, k, v)| == if HasKey(d, k) then |d| else |d| + 1
  {
    if d != [] && d[0].key != k {
      PutUnique(d[1..], k, v);
      var rest := Put(d[1..], k, v);
      forall j | 0 <= j < |rest|
        ensures rest[j].key != d[0].key
      {
        PutMemberKey(d[1..], k, v, j);
        if rest[j].key != k {
          var m :| 0 <= m < |d[1..]| && d[1..][m].key == rest[j].key;
          assert d[m + 1].key == rest[j].key;
        }
      }
    } else if d != [] {
      PutHeadKeys(d, k, v);
    }
  }

  /** Each key of `Put(d, k, v)` is `k` or a key of `d`. */
  lemma {:induction false} PutMemberKey(d: Dict, k: string, v: Json, j: nat)
    requires j < |Put(d, k, v)|
    ensures Put(d, k, v)[j].key == k || exists m :: 0 <= m < |d| && d[m].key == Put(d, k, v)[j].key
  {
    if d != [] && d[0].key != k {
      if j > 0 {
        PutMemberKey(d[1..], k, v, j - 1);
        var r := Put(d[1..], k, v);
        if r[j - 1].key != k {
          var m :| 0 <= m < |d[1..]| && d[1..][m].key == r[j - 1].key;
          assert d[m + 1].key == r[j - 1].key;
        }
      }
    } else if d != [] && j > 0 {
      assert Put(d, k, v)[j] == d[j];
    }
  }

  /** Each member of `Put(d, k, v)` is the new member or one of `d`'s. */
  lemma {:induction false} PutMember(d: Dict, k: string, v: Json, j: nat)
    requires j < |Put(d, k, v)|
    ensures Put(d, k, v)[j] == Member(k, v) || Put(d, k, v)[j] in d
  {
    if d != [] && d[0].key != k && j > 0 {
      PutMember(d[1..], k, v, j - 1);
    }
  }

  lemma PutHeadKeys(d: Dict, k: string, v: Json)
    requires UniqueKeys(d) && d != [] && d[0].key == k
    ensures UniqueKeys(Put(d, k, v)) && |Put(d, k, v)| == |d|
  {
    var r := Put(d, k, v);
    assert forall j :: 0 <= j < |d| ==> r[j].key == d[j].key;
  }

  lemma {:induction false} RemoveUnique(d: Dict, k: string)
    requires UniqueKeys(d)
    ensures UniqueKeys(Remove(d, k))
    ensures forall x :: x in Remove(d, k) ==> x in d
  {
    if d != [] {
      var rest := d[1..];
      assert UniqueKeys(rest) by {
        forall i, j | 0 <= i < j < |rest| ensures rest[i].key != rest[j].key {
          assert rest[i] == d[i + 1] && rest[j] == d[j + 1];
        }
      }
      if d[0].key != k {
        RemoveUnique(rest, k);
        forall x | x in Remove(rest, k)
          ensures x.key != d[0].key
        {
          var m :| 0 <= m < |rest| && rest[m] == x;
          assert d[m + 1] == x;
        }
        ConsUnique(d[0], Remove(rest, k));
      }
    }
  }

  /** A member whose key is new, followed by a mapping with distinct keys. */
  lemma ConsUnique(m: Member, d: Dict)
    requires UniqueKeys(d) && forall x :: x in d ==> x.key != m.key
    ensures UniqueKeys([m] + d)
  {
    var r := [m] + d;
    forall i, j | 0 <= i < j < |r| ensures r[i].key != r[j].key {
      assert r[j] == d[j - 1];
      if i > 0 {
        assert r[i] == d[i - 1];
      }
    }
  }

  /** Looking up in a concatenation: the first part wins. */
  lemma {:induction false} LookupAppend(a: Dict, b: Dict, k: string)
    ensures Lookup(a + b, k) == if HasKey(a, k) then Lookup(a, k) else Lookup(b, k)
  {
    if a != [] {
      assert (a + b)[1..] == a[1..] + b;
      LookupAppend(a[1..], b, k);
    } else {
      assert a + b == b;
    }
  }

  /** Every member's key is found. */
  lemma {:induction false} LookupHasKey(d: Dict, i: nat)
    requires i < |d|
    ensures HasKey(d, d[i].key)
  {
    if i > 0 && d[0].key != d[i].key {
      LookupHasKey(d[1..], i - 1);
    }
  }

  /** The set of keys of a mapping. */
  function KeySet(d: Dict): (ks: set<string>)
    ensures forall k :: k in ks <==> HasKey(d, k)
  {
    if d == [] then {} else {d[0].key} + KeySet(d[1..])
  }

  // ---------------------------------------------------------------------------
  // Python evaluation rules on the tree
  // ---------------------------------------------------------------------------

  /** `bool(j)`: None, False, 0 and empty strings, lists and dicts are false. */
  predicate Truthy(j: Json)
  {
    match j
    case JNull => false
    case JBool(b) => b
    case JNum(n) => n != 0
    case JStr(s) => s != []
    case JArr(xs) => xs != []
    case JObj(ms) => ms != []
  }

  /** `needle in container`: key test on a dict, element test on a list, substring test on a str. */
  function PyIn(needle: string, container: Json): (r: Py<bool>)
    ensures container.JObj? ==> r == Ok(HasKey(container.members, needle))
    ensures r.Raises? <==> !(container.JObj? || container.JArr? || container.JStr?)
  {
    match container
    case JObj(ms) => Ok(HasKey(ms, needle))
    case JArr(xs) => Ok(JStr(needle) in xs)
    case JStr(s) => Ok(IsSubstring(needle, s))
    case _ => Raises
  }

  /** `container[key]` with a string key: only a dict holding the key answers. */
  function PyIndex(container: Json, key: string): (r: Py<Json>)
    ensures r.Ok? <==> container.JObj? && HasKey(container.members, key)
  {
    if container.JObj? && HasKey(container.members, key) then Ok(Lookup(container.members, key).value)
    else Raises
  }

  /** `container.get(key, default)`: only dicts have `.get`. */
  function PyGet(container: Json, key: string, default: Json): (r: Py<Json>)
    ensures r.Ok? <==> container.JObj?
  {
    match container
    case JObj(ms) => Ok(if HasKey(ms, key) then Lookup(ms, key).value else default)
    case _ => Raises
  }

  /** What `for x in j` visits: list items, dict keys, or one-character strings. */
  function PyIter(j: Json): (r: Py<seq<Json>>)
    ensures r.Ok? <==> j.JArr? || j.JObj? || j.JStr?
  {
    match j
    case JArr(xs) => Ok(xs)
    case JObj(ms) => Ok(seq(|ms|, i requires 0 <= i < |ms| => JStr(ms[i].key)))
    case JStr(s) => Ok(seq(|s|, i requires 0 <= i < |s| => JStr([s[i]])))
    case _ => Raises
  }

  /**
    Python's `==` on parsed values: dicts compare as mappings (member order does not
    matter), lists element by element, and `True == 1`, `False == 0`.
  */
  predicate PyEq(a: Json, b: Json)
    decreases a
  {
    match a
    case JObj(ms) =>
      b.JObj? && KeySet(ms) == KeySet(b.members)
      && forall i :: 0 <= i < |ms| ==> HasKey(b.members, ms[i].key) && PyEq(ms[i].value, Lookup(b.members, ms[i].key).value)
    case JArr(xs) =>
      b.JArr? && |xs| == |b.items| && forall i :: 0 <= i < |xs| ==> PyEq(xs[i], b.items[i])
    case JBool(x) => b == a || (b.JNum? && b.n == (if x then 1 else 0))
    case JNum(n) => b == a || (b.JBool? && n == (if b.b then 1 else 0))
    case _ => b == a
  }
}

/** Choosing the endpoints of a document whose path matches a glob or a regular-expression pattern. */
module Filters {
  import opened Text
  import opened JsonTree
  import opened Models

  /** The message of the `ValueError` a regular-expression filter raises for a pattern that does not compile. */
  const InvalidRegexPrefix: string := "Invalid regex pattern: "

  /**
    The library matching the filter delegates to: `fnmatch(path, pattern)`, whether the compiled
    `pattern` matches at the start of `path`, and whether `re.compile(pattern)` succeeds.
  */
  datatype Matchers = Matchers(
    glob: (string, string) -> bool,
    regex: (string, string) -> bool,
    compiles: string -> bool)

  /** An `EndpointFilter`: its optional pattern and its type, `"glob"` or `"regex"`. */
  datatype EndpointFilter = EndpointFilter(pattern: Option<string>, filterType: string)

  /** The pattern is truthy: present and not empty. */
  predicate HasPattern(pattern: Option<string>)
  {
    pattern.Some? && pattern.value != ""
  }

  /**
    `EndpointFilter(pattern, filter_type)`: a regular-expression filter with a pattern that does
    not compile is refused with `ValueError`; every other filter is built.
  */
  function NewFilter(pattern: Option<string>, filterType: string, m: Matchers): (r: Result<EndpointFilter, string>)
    ensures r.Failure? <==> HasPattern(pattern) && filterType == "regex" && !m.compiles(pattern.value)
    ensures r.Failure? ==> r.error == InvalidRegexPrefix + pattern.value
    ensures r.Success? ==> r.value.pattern == pattern && r.value.filterType == filterType
  {
    if HasPattern(pattern) && filterType == "regex" && !m.compiles(pattern.value) then
      Failure(InvalidRegexPrefix + pattern.value)
    else
      Success(EndpointFilter(pattern, filterType))
  }

  /**
    `EndpointFilter.matches`: without a pattern every path matches; otherwise a `"regex"` filter
    asks the regular expression and any other type asks `fnmatch`.
  */
  function Matches(f: EndpointFilter, m: Matchers, path: string): (r: bool)
    ensures !HasPattern(f.pattern) ==> r
  {
    if !HasPattern(f.pattern) then true
    else if f.filterType == "regex" then m.regex(path, f.pattern.value)
    else m.glob(path, f.pattern.value)
  }

  /** A path item key naming an HTTP method, in any letter case. */
  predicate IsMethodKey(k: string)
  {
    Lower(k) in OperationMethods
  }

  /** The keys of a path item that name an HTTP method, in the item's order and with their own case. */
  function MethodKeys(item: Dict): seq<string>
  {
    if item == [] then []
    else (if IsMethodKey(item[0].key) then [item[0].key] else []) + MethodKeys(item[1..])
  }

  /** Exactly the method keys of the item are kept. */
  lemma {:induction false} MethodKeysExact(item: Dict)
    ensures forall k :: k in MethodKeys(item) <==> k in Keys(item) && IsMethodKey(k)
  {
    if item != [] {
      MethodKeysExact(item[1..]);
      assert Keys(item) == [item[0].key] + Keys(item[1..]);
    }
  }

  /** One `(path, method)` pair per method key. */
  function Pairs(path: string, methods: seq<string>): (r: seq<(string, string)>)
    ensures |r| == |methods|
    ensures forall i :: 0 <= i < |r| ==> r[i] == (path, methods[i])
  {
    seq(|methods|, i requires 0 <= i < |methods| => (path, methods[i]))
  }

  /** The pairs of one more method key follow those of the keys before it. */
  lemma PairsNext(path: string, methods: seq<string>, j: nat)
    requires j < |methods|
    ensures Pairs(path, methods[..j + 1]) == Pairs(path, methods[..j]) + [(path, methods[j])]
  {
  }

  /**
    What one entry of `paths` contributes: nothing when the path does not match, and the
    `AttributeError` of `path_item.keys()` when the matching item is not a mapping.
  */
  function ItemEndpoints(f: EndpointFilter, m: Matchers, entry: Member): Py<seq<(string, string)>>
  {
    if !Matches(f, m, entry.key) then Ok([])
    else if !entry.value.JObj? then Raises
    else Ok(Pairs(entry.key, MethodKeys(entry.value.members)))
  }

  /** The endpoints of `paths`, entry by entry in the mapping's order; the first raise ends it. */
  function Endpoints(f: EndpointFilter, m: Matchers, paths: Dict): Py<seq<(string, string)>>
    decreases |paths|
  {
    if paths == [] then Ok([])
    else
      match Endpoints(f, m, paths[..|paths| - 1])
      case Raises => Raises
      case Ok(earlier) =>
        match ItemEndpoints(f, m, paths[|paths| - 1])
        case Raises => Raises
        case Ok(more) => Ok(earlier + more)
  }

  /** `EndpointFilter.filter_endpoints`: appends the pairs of each matching path item in turn. */
  method FilterEndpoints(f: EndpointFilter, m: Matchers, paths: Dict) returns (r: Py<seq<(string, string)>>)
    ensures r == Endpoints(f, m, paths)
  {
    var endpoints: seq<(string, string)> := [];
    for i := 0 to |paths|
      invariant Endpoints(f, m, paths[..i]) == Ok(endpoints)
    {
      EndpointsNext(f, m, paths, i);
      var path, pathItem := paths[i].key, paths[i].value;
      if !Matches(f, m, path) {
        assert endpoints + [] == endpoints;
      } else if !pathItem.JObj? {
        RaisesPersists(f, m, paths, i + 1);
        return Raises;
      } else {
        var methods := MethodKeys(pathItem.members);
        ghost var before := endpoints;
        for j := 0 to |methods|
          invariant endpoints == before + Pairs(path, methods[..j])
        {
          PairsNext(path, methods, j);
          endpoints := endpoints + [(path, methods[j])];
        }
        assert methods[..|methods|] == methods;
        assert ItemEndpoints(f, m, paths[i]) == Ok(Pairs(path, methods));
      }
    }
    assert paths[..|paths|] == paths;
    return Ok(endpoints);
  }

  /** One more entry of `paths`: its pairs follow those of the entries before it. */
  lemma EndpointsNext(f: EndpointFilter, m: Matchers, paths: Dict, i: nat)
    requires i < |paths| && Endpoints(f, m, paths[..i]).Ok?
    ensures ItemEndpoints(f, m, paths[i]).Raises? ==> Endpoints(f, m, paths[..i + 1]) == Raises
    ensures ItemEndpoints(f, m, paths[i]).Ok? ==>
      Endpoints(f, m, paths[..i + 1]) == Ok(Endpoints(f, m, paths[..i]).value + ItemEndpoints(f, m, paths[i]).value)
  {
    assert paths[..i + 1][..i] == paths[..i] && paths[..i + 1][i] == paths[i];
  }

  /** Once a prefix of `paths` raises, the whole of `paths` raises. */
  lemma {:induction false} RaisesPersists(f: EndpointFilter, m: Matchers, paths: Dict, n: nat)
    requires n <= |paths| && Endpoints(f, m, paths[..n]) == Raises
    ensures Endpoints(f, m, paths) == Raises
    decreases |paths| - n
  {
    if n < |paths| {
      assert paths[..n + 1][..n] == paths[..n];
      RaisesPersists(f, m, paths, n + 1);
    } else {
      assert paths[..n] == paths;
    }
  }

  /** A matching path whose item is not a mapping. */
  predicate BadItem(f: EndpointFilter, m: Matchers, entry: Member)
  {
    Matches(f, m, entry.key) && !entry.value.JObj?
  }

  /** Entry `entry` of `paths` is a matching path whose item has method key `k`. */
  predicate EntrySelects(f: EndpointFilter, m: Matchers, entry: Member, p: string, k: string)
  {
    entry.key == p && Matches(f, m, p) && entry.value.JObj? && k in Keys(entry.value.members) && IsMethodKey(k)
  }

  /** A pair the filter is meant to report: a matching path and one of its item's method keys. */
  predicate Selected(f: EndpointFilter, m: Matchers, paths: Dict, p: string, k: string)
  {
    exists i :: 0 <= i < |paths| && EntrySelects(f, m, paths[i], p, k)
  }

  /** One entry contributes exactly the pairs it selects. */
  lemma ItemEndpointsExact(f: EndpointFilter, m: Matchers, entry: Member, p: string, k: string)
    requires ItemEndpoints(f, m, entry).Ok?
    ensures (p, k) in ItemEndpoints(f, m, entry).value <==> EntrySelects(f, m, entry, p, k)
  {
    if entry.value.JObj? {
      MethodKeysExact(entry.value.members);
    }
    if EntrySelects(f, m, entry, p, k) {
      var ks := MethodKeys(entry.value.members);
      var j :| 0 <= j < |ks| && ks[j] == k;
      assert ItemEndpoints(f, m, entry).value[j] == (p, k);
    }
  }

  /** A pair is selected by `paths` exactly when it is selected by all but the last entry, or by the last. */
  lemma SelectedLast(f: EndpointFilter, m: Matchers, paths: Dict, p: string, k: string)
    requires paths != []
    ensures Selected(f, m, paths, p, k)
      <==> Selected(f, m, paths[..|paths| - 1], p, k) || EntrySelects(f, m, paths[|paths| - 1], p, k)
  {
    var prefix := paths[..|paths| - 1];
    if Selected(f, m, paths, p, k) {
      var i :| 0 <= i < |paths| && EntrySelects(f, m, paths[i], p, k);
      if i < |prefix| {
        assert prefix[i] == paths[i];
      }
    }
    if Selected(f, m, prefix, p, k) {
      var i :| 0 <= i < |prefix| && EntrySelects(f, m, prefix[i], p, k);
      assert prefix[i] == paths[i];
    }
  }

  /** Filtering raises exactly when some matching path has an item that is not a mapping. */
  lemma {:induction false} EndpointsRaise(f: EndpointFilter, m: Matchers, paths: Dict)
    ensures Endpoints(f, m, paths).Raises? <==> exists i :: 0 <= i < |paths| && BadItem(f, m, paths[i])
    decreases |paths|
  {
    if paths != [] {
      var n := |paths| - 1;
      var prefix := paths[..n];
      EndpointsRaise(f, m, prefix);
      assert forall i :: 0 <= i < n ==> prefix[i] == paths[i];
      if exists i :: 0 <= i < |paths| && BadItem(f, m, paths[i]) {
        var i :| 0 <= i < |paths| && BadItem(f, m, paths[i]);
        if i < n {
          assert BadItem(f, m, prefix[i]);
        }
      }
    }
  }

  /**
    When filtering does not raise it reports exactly the selected pairs, so a key such as
    `parameters` or `summary` never appears and a method key keeps its own letter case.
  */
  lemma {:induction false} EndpointsExact(f: EndpointFilter, m: Matchers, paths: Dict)
    ensures Endpoints(f, m, paths).Ok? ==>
      forall p, k :: (p, k) in Endpoints(f, m, paths).value <==> Selected(f, m, paths, p, k)
    decreases |paths|
  {
    if paths != [] && Endpoints(f, m, paths).Ok? {
      var n := |paths| - 1;
      var prefix := paths[..n];
      EndpointsExact(f, m, prefix);
      var earlier := Endpoints(f, m, prefix).value;
      var more := ItemEndpoints(f, m, paths[n]).value;
      assert Endpoints(f, m, paths).value == earlier + more;
      forall p, k ensures (p, k) in earlier + more <==> Selected(f, m, paths, p, k) {
        ItemEndpointsExact(f, m, paths[n], p, k);
        SelectedLast(f, m, paths, p, k);
      }
    }
  }

  /** Where key `k` sits in `d`: its first position, or `|d|` when it is absent. */
  function KeyIndex(d: Dict, k: string): (r: nat)
    ensures r <= |d|
    ensures r < |d| ==> d[r].key == k
    ensures forall i :: 0 <= i < r ==> d[i].key != k
  {
    if d == [] then 0
    else if d[0].key == k then 0
    else 1 + KeyIndex(d[1..], k)
  }

  /** Two reported pairs in the order filtering must produce them: by path first, then by key within the path item. */
  predicate InOrder(paths: Dict, x: (string, string), y: (string, string))
  {
    var i, j := KeyIndex(paths, x.0), KeyIndex(paths, y.0);
    i < j
    || (i == j && i < |paths| && paths[i].value.JObj?
        && KeyIndex(paths[i].value.members, x.1) < KeyIndex(paths[i].value.members, y.1))
  }

  /** The keys `r` sit in `item` in the order they are listed. */
  predicate KeysInOrder(item: Dict, r: seq<string>)
  {
    forall a, b :: 0 <= a < b < |r| ==> KeyIndex(item, r[a]) < KeyIndex(item, r[b])
  }

  /** Method keys come out in the order of the path item. */
  lemma {:induction false} MethodKeysOrder(item: Dict)
    requires UniqueKeys(item)
    ensures KeysInOrder(item, MethodKeys(item))
  {
    if item != [] {
      var rest := item[1..];
      assert UniqueKeys(rest) by {
        forall i, j | 0 <= i < j < |rest| ensures rest[i].key != rest[j].key {
          assert rest[i] == item[i + 1] && rest[j] == item[j + 1];
        }
      }
      MethodKeysOrder(rest);
      MethodKeysOrderStep(item);
    }
  }

  /** The step of `MethodKeysOrder`: the first key, if kept, comes before every key of the rest. */
  lemma MethodKeysOrderStep(item: Dict)
    requires UniqueKeys(item) && item != [] && KeysInOrder(item[1..], MethodKeys(item[1..]))
    ensures KeysInOrder(item, MethodKeys(item))
  {
    var tail := MethodKeys(item[1..]);
    MethodKeysExact(item[1..]);
    ConsInOrder(item, tail, MethodKeys(item));
  }

  /** Keys of the rest listed in order stay in order, with or without the first key in front. */
  lemma ConsInOrder(item: Dict, tail: seq<string>, r: seq<string>)
    requires UniqueKeys(item) && item != [] && KeysInOrder(item[1..], tail)
    requires forall k :: k in tail ==> k in Keys(item[1..])
    requires r == tail || r == [item[0].key] + tail
    ensures KeysInOrder(item, r)
  {
    var rest := item[1..];
    forall k | k in tail ensures KeyIndex(item, k) == 1 + KeyIndex(rest, k) {
      KeyIndexRest(item, k);
    }
    if r == tail {
      forall a, b | 0 <= a < b < |r| ensures KeyIndex(item, r[a]) < KeyIndex(item, r[b]) {
        assert r[a] in tail && r[b] in tail;
      }
    } else {
      forall a, b | 0 <= a < b < |r| ensures KeyIndex(item, r[a]) < KeyIndex(item, r[b]) {
        assert r[b] == tail[b - 1] && r[b] in tail;
        if a > 0 {
          assert r[a] == tail[a - 1] && r[a] in tail;
        }
      }
    }
  }

  /** With distinct keys, a key of the rest is not the first key and sits one place further on. */
  lemma KeyIndexRest(item: Dict, k: string)
    requires UniqueKeys(item) && item != [] && k in Keys(item[1..])
    ensures KeyIndex(item, k) == 1 + KeyIndex(item[1..], k)
  {
    var rest := item[1..];
    var i :| 0 <= i < |rest| && Keys(rest)[i] == k;
    assert item[i + 1].key == k;
  }

  /** The pairs `r` come in the order filtering must produce them. */
  predicate PairsInOrder(paths: Dict, r: seq<(string, string)>)
  {
    forall a, b :: 0 <= a < b < |r| ==> InOrder(paths, r[a], r[b])
  }

  /**
    With distinct keys, as in every Python dict, pairs come out in the order of `paths` and,
    within one path, in the order of its item's keys.
  */
  lemma {:induction false} EndpointsOrder(f: EndpointFilter, m: Matchers, paths: Dict)
    requires UniqueKeys(paths)
    requires forall i :: 0 <= i < |paths| && paths[i].value.JObj? ==> UniqueKeys(paths[i].value.members)
    ensures Endpoints(f, m, paths).Ok? ==> PairsInOrder(paths, Endpoints(f, m, paths).value)
    decreases |paths|
  {
    if paths != [] && Endpoints(f, m, paths).Ok? {
      var n := |paths| - 1;
      var prefix := paths[..n];
      assert forall i :: 0 <= i < n ==> prefix[i] == paths[i];
      EndpointsOrder(f, m, prefix);
      var earlier := Endpoints(f, m, prefix).value;
      var more := ItemEndpoints(f, m, paths[n]).value;
      assert Endpoints(f, m, paths).value == earlier + more;
      EarlierPaths(f, m, prefix);
      var ks := if paths[n].value.JObj? then MethodKeys(paths[n].value.members) else [];
      if more != [] {
        MethodKeysOrder(paths[n].value.members);
      }
      AppendInOrder(paths, earlier, more, ks);
    }
  }

  /** Every path reported for `paths` is one of its keys. */
  lemma EarlierPaths(f: EndpointFilter, m: Matchers, paths: Dict)
    requires Endpoints(f, m, paths).Ok?
    ensures forall x :: x in Endpoints(f, m, paths).value ==> x.0 in Keys(paths)
  {
    EndpointsExact(f, m, paths);
    forall x | x in Endpoints(f, m, paths).value ensures x.0 in Keys(paths) {
      assert (x.0, x.1) == x;
      assert Selected(f, m, paths, x.0, x.1);
      var i :| 0 <= i < |paths| && EntrySelects(f, m, paths[i], x.0, x.1);
      assert Keys(paths)[i] == x.0;
    }
  }

  /**
    The step of `EndpointsOrder`: pairs in order for all but the last entry, followed by the
    last entry's pairs in key order, are in order for the whole.
  */
  lemma AppendInOrder(paths: Dict, earlier: seq<(string, string)>, more: seq<(string, string)>, ks: seq<string>)
    requires UniqueKeys(paths) && paths != []
    requires PairsInOrder(paths[..|paths| - 1], earlier)
    requires forall x :: x in earlier ==> x.0 in Keys(paths[..|paths| - 1])
    requires more == [] || (paths[|paths| - 1].value.JObj?
      && more == Pairs(paths[|paths| - 1].key, ks) && KeysInOrder(paths[|paths| - 1].value.members, ks))
    ensures PairsInOrder(paths, earlier + more)
  {
    var n := |paths| - 1;
    var prefix := paths[..n];
    var r := earlier + more;
    forall k | k in Keys(prefix) ensures KeyIndex(paths, k) == KeyIndex(prefix, k) < n {
      var i :| 0 <= i < n && Keys(prefix)[i] == k;
      PrefixKeyIndex(paths, n, i);
    }
    assert KeyIndex(paths, paths[n].key) == n;
    forall a, b | 0 <= a < b < |r| ensures InOrder(paths, r[a], r[b]) {
      if b < |earlier| {
        assert InOrder(prefix, earlier[a], earlier[b]);
        assert earlier[a] in earlier && earlier[b] in earlier;
        var i := KeyIndex(prefix, earlier[a].0);
        if i < n {
          assert prefix[i] == paths[i];
        }
      } else if a < |earlier| {
        assert r[a] in earlier;
      } else {
        assert r[a] == more[a - |earlier|] && r[b] == more[b - |earlier|];
      }
    }
  }

  /** A key found at position `i` of the first `n` members is found at the same place in the whole. */
  lemma PrefixKeyIndex(d: Dict, n: nat, i: nat)
    requires i < n <= |d|
    ensures KeyIndex(d, d[i].key) == KeyIndex(d[..n], d[i].key) <= i
  {
    var k := d[i].key;
    var p := d[..n];
    assert p[i].key == k;
    assert forall j :: 0 <= j < n ==> p[j] == d[j];
  }

  /** Keys are matched case-insensitively but reported as written; other keys of a path item are skipped. */
  lemma MethodKeyExamples()
    ensures IsMethodKey("get") && IsMethodKey("GET") && IsMethodKey("Patch")
    ensures !IsMethodKey("parameters") && !IsMethodKey("summary") && !IsMethodKey("servers")
  {
    assert Lower("get") == "get";
    assert Lower("GET") == "get";
    assert Lower("Patch") == "patch";
    assert Lower("parameters") == "parameters";
    assert Lower("summary") == "summary";
    assert Lower("servers") == "servers";
  }
}

/**
  The 3.0 <-> 3.1 version converter. The source rewrites a deep copy of the document in
  place; here each rewrite is a function from the document value to the rewritten value,
  so the caller's document is never changed.
*/
module Converter {
  import opened Text
  import opened JsonTree
  import opened Models

  /** The two supported directions. */
  datatype Direction = ToV31 | ToV30

  /** The keys `process_schema` descends into, in the order it visits them. */
  const NestedKeys: seq<string> := ["properties", "items", "allOf", "oneOf", "anyOf"]

  const Null: Json := JStr("null")

  // ---------------------------------------------------------------------------
  // The per-object step of each direction
  // ---------------------------------------------------------------------------

  /**
    3.0 -> 3.1 on one schema object: when `nullable` is exactly `true`, a string type `t`
    (default `"object"`) becomes `[t, "null"]`, a type list lacking `"null"` gets it
    appended, and `nullable` is deleted.
  */
  function NullableToTypeArray(ms: Dict): Dict
  {
    if Lookup(ms, "nullable") == Some(JBool(true)) then
      var current := GetOr(ms, "type", JStr("object"));
      var typed :=
        if current.JStr? then Put(ms, "type", JArr([current, Null]))
        else if current.JArr? && Null !in current.items then Put(ms, "type", JArr(current.items + [Null]))
        else ms;
      Remove(typed, "nullable")
    else ms
  }

  /** `[t for t in types if t != "null"]` */
  function NonNull(types: seq<Json>): (r: seq<Json>)
    ensures forall x :: x in r <==> x in types && x != Null
    ensures |r| <= |types|
  {
    if types == [] then []
    else (if types[0] != Null then [types[0]] else []) + NonNull(types[1..])
  }

  /**
    3.1 -> 3.0 on one schema object: a type list holding `"null"` is replaced by its first
    other entry (kept when there is none) and `nullable: true` is set.
  */
  function TypeArrayToNullable(ms: Dict): Dict
  {
    var current := Lookup(ms, "type");
    if current.Some? && current.value.JArr? && Null in current.value.items then
      var others := NonNull(current.value.items);
      var typed := if others != [] then Put(ms, "type", others[0]) else ms;
      Put(typed, "nullable", JBool(true))
    else ms
  }

  function TopStep(d: Direction, ms: Dict): Dict
  {
    match d
    case ToV31 => NullableToTypeArray(ms)
    case ToV30 => TypeArrayToNullable(ms)
  }

  // ---------------------------------------------------------------------------
  // process_schema: the recursive walk shared by both directions
  // ---------------------------------------------------------------------------

  /**
    `process_schema`: a non-dict is left alone; a dict gets the direction's step and its
    nested schemas processed. The source applies the step before descending; the two touch
    disjoint keys (`type`/`nullable` against the nested keys), so descending first gives the
    same dict.
  */
  function ProcessSchema(d: Direction, schema: Json): Json
    decreases schema
  {
    match schema
    case JObj(ms) => JObj(TopStep(d, ProcessNested(d, ms)))
    case _ => schema
  }

  /** The members of a schema object with every nested schema processed; keys and order unchanged. */
  function ProcessNested(d: Direction, ms: Dict): (r: Dict)
    ensures Keys(r) == Keys(ms)
    decreases ms
  {
    if ms == [] then []
    else [ProcessEntry(d, ms[0])] + ProcessNested(d, ms[1..])
  }

  /**
    One member of a schema object: a dict `properties` has each property processed; any
    nested key holding a dict is processed as a schema and one holding a list has each item
    processed; everything else is kept.
  */
  function ProcessEntry(d: Direction, m: Member): (r: Member)
    ensures r.key == m.key
    decreases m
  {
    if m.key == "properties" && m.value.JObj? then Member(m.key, JObj(ProcessValues(d, m.value.members)))
    else if m.key in NestedKeys then
      match m.value
      case JObj(_) => Member(m.key, ProcessSchema(d, m.value))
      case JArr(xs) => Member(m.key, JArr(ProcessItems(d, xs)))
      case _ => m
    else m
  }

  function ProcessValues(d: Direction, ms: Dict): (r: Dict)
    ensures Keys(r) == Keys(ms)
    decreases ms
  {
    if ms == [] then []
    else [Member(ms[0].key, ProcessSchema(d, ms[0].value))] + ProcessValues(d, ms[1..])
  }

  function ProcessItems(d: Direction, xs: seq<Json>): (r: seq<Json>)
    ensures |r| == |xs|
    decreases xs
  {
    if xs == [] then []
    else [ProcessSchema(d, xs[0])] + ProcessItems(d, xs[1..])
  }

  // ---------------------------------------------------------------------------
  // What the walk does, member by member
  // ---------------------------------------------------------------------------

  lemma {:induction false} ProcessValuesAt(d: Direction, ms: Dict, i: nat)
    requires i < |ms|
    ensures ProcessValues(d, ms)[i] == Member(ms[i].key, ProcessSchema(d, ms[i].value))
    decreases i
  {
    if i > 0 {
      ProcessValuesAt(d, ms[1..], i - 1);
    }
  }

  lemma {:induction false} ProcessItemsAt(d: Direction, xs: seq<Json>, i: nat)
    requires i < |xs|
    ensures ProcessItems(d, xs)[i] == ProcessSchema(d, xs[i])
    decreases i
  {
    if i > 0 {
      ProcessItemsAt(d, xs[1..], i - 1);
    }
  }

  /** Looking a key up after the nested walk finds the processed form of the original value. */
  lemma {:induction false} ProcessNestedLookup(d: Direction, ms: Dict, k: string)
    ensures Lookup(ProcessNested(d, ms), k)
      == if HasKey(ms, k) then Some(ProcessEntry(d, Member(k, Lookup(ms, k).value)).value) else None
  {
    if ms != [] && ms[0].key != k {
      ProcessNestedLookup(d, ms[1..], k);
    }
  }

  lemma {:induction false} SameKeysUnique(a: Dict, b: Dict)
    requires Keys(a) == Keys(b) && UniqueKeys(a)
    ensures UniqueKeys(b)
  {
    assert forall i :: 0 <= i < |b| ==> b[i].key == Keys(a)[i];
  }

  /** Dropping `"null"` from a list that ends in `"null"` is dropping it from the rest. */
  lemma {:induction false} NonNullAppend(xs: seq<Json>)
    ensures NonNull(xs + [Null]) == NonNull(xs)
  {
    if xs != [] {
      assert (xs + [Null])[1..] == xs[1..] + [Null];
      NonNullAppend(xs[1..]);
    } else {
      assert NonNull([Null]) == NonNull([]);
    }
  }

  /**
    The 3.0 -> 3.1 step leaves every key other than `type` and `nullable` alone. When
    `nullable` is exactly `true` it is gone afterwards, and a string or list type becomes a
    list that admits `"null"` and otherwise names the same types; otherwise nothing changes.
  */
  lemma {:induction false} NullableToTypeArrayEffect(ms: Dict)
    requires UniqueKeys(ms)
    ensures var r := NullableToTypeArray(ms);
      UniqueKeys(r)
      && (forall k :: k != "type" && k != "nullable" ==> Lookup(r, k) == Lookup(ms, k))
      && (Lookup(ms, "nullable") != Some(JBool(true)) ==> r == ms)
      && (Lookup(ms, "nullable") == Some(JBool(true)) ==>
            var t := GetOr(ms, "type", JStr("object"));
            !HasKey(r, "nullable")
            && (t.JStr? ==> Lookup(r, "type") == Some(JArr([t, Null])))
            && (t.JArr? ==>
                  (Lookup(r, "type").Some? && Lookup(r, "type").value.JArr?
                   && Null in Lookup(r, "type").value.items
                   && NonNull(Lookup(r, "type").value.items) == NonNull(t.items)))
            && (!t.JStr? && !t.JArr? ==> Lookup(r, "type") == Lookup(ms, "type")))
  {
    if Lookup(ms, "nullable") == Some(JBool(true)) {
      var t := GetOr(ms, "type", JStr("object"));
      if t.JStr? {
        RetypeDropNullable(ms, JArr([t, Null]));
      } else if t.JArr? && Null !in t.items {
        RetypeDropNullable(ms, JArr(t.items + [Null]));
        NonNullAppend(t.items);
      } else {
        DropNullable(ms);
      }
    }
  }

  /** Setting `type` and then deleting `nullable`. */
  lemma RetypeDropNullable(ms: Dict, v: Json)
    requires UniqueKeys(ms)
    ensures var r := Remove(Put(ms, "type", v), "nullable");
      UniqueKeys(r) && !HasKey(r, "nullable") && Lookup(r, "type") == Some(v)
      && forall k :: k != "type" && k != "nullable" ==> Lookup(r, k) == Lookup(ms, k)
  {
    var typed := Put(ms, "type", v);
    PutUnique(ms, "type", v);
    forall k { LookupPut(ms, "type", v, k); }
    DropNullable(typed);
  }

  /** Deleting `nullable`. */
  lemma DropNullable(ms: Dict)
    requires UniqueKeys(ms)
    ensures var r := Remove(ms, "nullable");
      UniqueKeys(r) && !HasKey(r, "nullable")
      && forall k :: k != "nullable" ==> Lookup(r, k) == Lookup(ms, k)
  {
    RemoveUnique(ms, "nullable");
    forall k { LookupRemove(ms, "nullable", k); }
  }

  /**
    The 3.1 -> 3.0 step leaves every key other than `type` and `nullable` alone. When `type`
    is a list holding `"null"`, afterwards `nullable` is `true` and `type` is the list's first
    other entry (the list itself when there is none); otherwise nothing changes.
  */
  lemma {:induction false} TypeArrayToNullableEffect(ms: Dict)
    requires UniqueKeys(ms)
    ensures var r := TypeArrayToNullable(ms);
      var current := Lookup(ms, "type");
      UniqueKeys(r)
      && (forall k :: k != "type" && k != "nullable" ==> Lookup(r, k) == Lookup(ms, k))
      && (!(current.Some? && current.value.JArr? && Null in current.value.items) ==> r == ms)
      && (current.Some? && current.value.JArr? && Null in current.value.items ==>
            var others := NonNull(current.value.items);
            Lookup(r, "nullable") == Some(JBool(true))
            && Lookup(r, "type") == Some(if others != [] then others[0] else current.value))
  {
    var current := Lookup(ms, "type");
    if current.Some? && current.value.JArr? && Null in current.value.items {
      var others := NonNull(current.value.items);
      var typed := if others != [] then Put(ms, "type", others[0]) else ms;
      if others != [] {
        PutUnique(ms, "type", others[0]);
        forall k { LookupPut(ms, "type", others[0], k); }
      }
      PutUnique(typed, "nullable", JBool(true));
      forall k { LookupPut(typed, "nullable", JBool(true), k); }
    }
  }

  /** `{"type": t, "nullable": true, ...}` comes back from 3.0 -> 3.1 -> 3.0 with every key as it was. */
  lemma {:induction false} NullableRoundTrip(ms: Dict, t: string)
    requires UniqueKeys(ms) && t != "null"
    requires Lookup(ms, "nullable") == Some(JBool(true)) && Lookup(ms, "type") == Some(JStr(t))
    ensures forall k :: Lookup(TypeArrayToNullable(NullableToTypeArray(ms)), k) == Lookup(ms, k)
  {
    NullableToTypeArrayEffect(ms);
    var r1 := NullableToTypeArray(ms);
    assert NonNull([JStr(t), Null]) == [JStr(t)];
    TypeArrayToNullableEffect(r1);
  }

  /** `{"type": [t, "null"], ...}` without `nullable` comes back from 3.1 -> 3.0 -> 3.1 with every key as it was. */
  lemma {:induction false} TypeArrayRoundTrip(ms: Dict, t: string)
    requires UniqueKeys(ms) && t != "null"
    requires !HasKey(ms, "nullable") && Lookup(ms, "type") == Some(JArr([JStr(t), Null]))
    ensures forall k :: Lookup(NullableToTypeArray(TypeArrayToNullable(ms)), k) == Lookup(ms, k)
  {
    assert NonNull([JStr(t), Null]) == [JStr(t)];
    TypeArrayToNullableEffect(ms);
    var r1 := TypeArrayToNullable(ms);
    NullableToTypeArrayEffect(r1);
  }

  /** The schema `{"type": t, "nullable": true}` survives 3.0 -> 3.1 -> 3.0 exactly. */
  lemma {:induction false} NullableSchemaRoundTrip(t: string)
    requires t != "null"
    ensures var s := JObj([Member("type", JStr(t)), Member("nullable", JBool(true))]);
      ProcessSchema(ToV30, ProcessSchema(ToV31, s)) == s
  {
    var ms := [Member("type", JStr(t)), Member("nullable", JBool(true))];
    var up := [Member("type", JArr([JStr(t), Null]))];
    NestedUntouched(ToV31, ms);
    NullableStepExample(t);
    NestedUntouched(ToV30, up);
    TypeArrayStepExample(t);
  }

  lemma {:induction false} NestedUntouched(d: Direction, ms: Dict)
    requires forall i :: 0 <= i < |ms| ==> ms[i].key == "type" || ms[i].key == "nullable"
    ensures ProcessNested(d, ms) == ms
  {
    if ms != [] {
      assert ms[0].key !in NestedKeys;
      NestedUntouched(d, ms[1..]);
    }
  }

  lemma NullableStepExample(t: string)
    ensures NullableToTypeArray([Member("type", JStr(t)), Member("nullable", JBool(true))])
      == [Member("type", JArr([JStr(t), Null]))]
  {
    var ms := [Member("type", JStr(t)), Member("nullable", JBool(true))];
    var typed := [Member("type", JArr([JStr(t), Null])), ms[1]];
    assert Lookup(ms, "nullable") == Some(JBool(true));
    assert GetOr(ms, "type", JStr("object")) == JStr(t);
    assert Put(ms, "type", JArr([JStr(t), Null])) == typed;
    assert typed[1..] == [Member("nullable", JBool(true))];
    assert Remove(typed[1..], "nullable") == [];
    assert Remove(typed, "nullable") == [typed[0]] + Remove(typed[1..], "nullable");
  }

  lemma TypeArrayStepExample(t: string)
    requires t != "null"
    ensures TypeArrayToNullable([Member("type", JArr([JStr(t), Null]))])
      == [Member("type", JStr(t)), Member("nullable", JBool(true))]
  {
    var up := [Member("type", JArr([JStr(t), Null]))];
    assert Lookup(up, "type") == Some(JArr([JStr(t), Null]));
    assert Null in [JStr(t), Null];
    assert NonNull([JStr(t), Null]) == [JStr(t)];
    assert Put(up, "type", JStr(t)) == [Member("type", JStr(t))];
    assert Put([Member("type", JStr(t))], "nullable", JBool(true)) == [Member("type", JStr(t))] + Put([], "nullable", JBool(true));
  }

  /**
    Processing a schema object, in either direction, keeps it a mapping with distinct keys,
    keeps every key other than `type` and `nullable` present or absent as before, keeps
    `required` as it was, and keeps the key set of a `properties` mapping.
  */
  lemma {:induction false} ProcessSchemaShape(d: Direction, s: Json)
    requires s.JObj? && UniqueKeys(s.members)
    ensures var r := ProcessSchema(d, s);
      r.JObj? && UniqueKeys(r.members)
      && (forall k :: k != "type" && k != "nullable" ==> (HasKey(r.members, k) <==> HasKey(s.members, k)))
      && Lookup(r.members, "required") == Lookup(s.members, "required")
      && (var p := Lookup(s.members, "properties");
          p.Some? && p.value.JObj? ==>
            (var q := Lookup(r.members, "properties");
             q.Some? && q.value.JObj? && Keys(q.value.members) == Keys(p.value.members)))
  {
    var ms := s.members;
    var x := ProcessNested(d, ms);
    SameKeysUnique(ms, x);
    TopStepFrame(d, x);
    forall k | k != "type" && k != "nullable"
      ensures HasKey(TopStep(d, x), k) <==> HasKey(ms, k)
    {
      ProcessNestedLookup(d, ms, k);
    }
    RequiredKept(d, ms);
    PropertiesKept(d, ms);
  }

  lemma RequiredKept(d: Direction, ms: Dict)
    requires UniqueKeys(ms)
    ensures Lookup(TopStep(d, ProcessNested(d, ms)), "required") == Lookup(ms, "required")
  {
    assert "required" !in NestedKeys && "required" != "type" && "required" != "nullable" by {
      assert forall k :: k in NestedKeys ==> |k| != |"required"|;
      assert "required"[0] != "nullable"[0];
    }
    UntouchedKept(d, ms, "required");
  }

  /** A key the walk neither rewrites nor descends into keeps its value. */
  lemma UntouchedKept(d: Direction, ms: Dict, k: string)
    requires UniqueKeys(ms) && k !in NestedKeys && k != "type" && k != "nullable"
    ensures Lookup(TopStep(d, ProcessNested(d, ms)), k) == Lookup(ms, k)
  {
    var x := ProcessNested(d, ms);
    SameKeysUnique(ms, x);
    TopStepFrame(d, x);
    ProcessNestedLookup(d, ms, k);
    if HasKey(ms, k) {
      EntryOutsideNested(d, Member(k, Lookup(ms, k).value));
    }
  }

  /** Processing a schema, in either direction, keeps its discriminator. */
  lemma DiscriminatorKept(d: Direction, s: Json)
    requires s.JObj? ==> UniqueKeys(s.members)
    ensures DiscriminatorOf(ProcessSchema(d, s)) == DiscriminatorOf(s)
  {
    if s.JObj? {
      assert "discriminator" !in NestedKeys && "discriminator" != "type" && "discriminator" != "nullable" by {
        assert forall k :: k in NestedKeys ==> |k| != |"discriminator"|;
      }
      UntouchedKept(d, s.members, "discriminator");
    }
  }

  /** A member under a key the walk does not descend into is kept as it is. */
  lemma EntryOutsideNested(d: Direction, m: Member)
    requires m.key !in NestedKeys
    ensures ProcessEntry(d, m) == m
  {
    assert m.key != "properties";
  }

  lemma PropertiesKept(d: Direction, ms: Dict)
    requires UniqueKeys(ms)
    ensures var p := Lookup(ms, "properties");
      p.Some? && p.value.JObj? ==>
        (var q := Lookup(TopStep(d, ProcessNested(d, ms)), "properties");
         q.Some? && q.value.JObj? && Keys(q.value.members) == Keys(p.value.members))
  {
    var x := ProcessNested(d, ms);
    SameKeysUnique(ms, x);
    TopStepFrame(d, x);
    ProcessNestedLookup(d, ms, "properties");
  }

  /** Either direction's step keeps distinct keys and leaves all but `type` and `nullable` alone. */
  lemma TopStepFrame(d: Direction, x: Dict)
    requires UniqueKeys(x)
    ensures UniqueKeys(TopStep(d, x))
    ensures forall k :: k != "type" && k != "nullable" ==> Lookup(TopStep(d, x), k) == Lookup(x, k)
    ensures forall k :: k in NestedKeys ==> Lookup(TopStep(d, x), k) == Lookup(x, k)
  {
    match d {
      case ToV31 => NullableToTypeArrayEffect(x);
      case ToV30 => TypeArrayToNullableEffect(x);
    }
  }

  /**
    After 3.0 -> 3.1 and back, every schema object keeps its `required` list and the key set
    of its `properties`.
  */
  lemma {:induction false} PropertiesRoundTrip(s: Json)
    requires s.JObj? && UniqueKeys(s.members)
    ensures var r := ProcessSchema(ToV30, ProcessSchema(ToV31, s));
      r.JObj?
      && Lookup(r.members, "required") == Lookup(s.members, "required")
      && (var p := Lookup(s.members, "properties");
          p.Some? && p.value.JObj? ==>
            (var q := Lookup(r.members, "properties");
             q.Some? && q.value.JObj? && Keys(q.value.members) == Keys(p.value.members)))
  {
    ProcessSchemaShape(ToV31, s);
    ProcessSchemaShape(ToV30, ProcessSchema(ToV31, s));
  }

  /** No schema object the walk reaches has `nullable: true`. */
  predicate NullableFree(s: Json)
    decreases s
  {
    match s
    case JObj(ms) =>
      Lookup(ms, "nullable") != Some(JBool(true))
      && forall i :: 0 <= i < |ms| ==> NestedNullableFree(ms[i])
    case _ => true
  }

  predicate NestedNullableFree(m: Member)
    decreases m
  {
    if m.key == "properties" && m.value.JObj? then
      forall i :: 0 <= i < |m.value.members| ==> NullableFree(m.value.members[i].value)
    else if m.key in NestedKeys then
      match m.value
      case JObj(_) => NullableFree(m.value)
      case JArr(xs) => forall i :: 0 <= i < |xs| ==> NullableFree(xs[i])
      case _ => true
    else true
  }

  /** 3.0 -> 3.1 leaves no `nullable: true` anywhere in the processed schema. */
  lemma {:induction false} NullableGone(s: Json)
    requires AllUnique(s)
    ensures NullableFree(ProcessSchema(ToV31, s))
    decreases s
  {
    match s
    case JObj(ms) =>
      var x := ProcessNested(ToV31, ms);
      SameKeysUnique(ms, x);
      NullableToTypeArrayEffect(x);
      TopStepFrame(ToV31, x);
      var r := NullableToTypeArray(x);
      forall i | 0 <= i < |r|
        ensures NestedNullableFree(r[i])
      {
        var k := r[i].key;
        if k in NestedKeys {
          LookupMember(r, i);
          assert Lookup(r, k) == Lookup(x, k);
          ProcessNestedLookup(ToV31, ms, k);
          LookupFound(ms, k);
          var j :| 0 <= j < |ms| && ms[j] == Member(k, Lookup(ms, k).value);
          NestedGone(ms[j]);
          assert r[i] == ProcessEntry(ToV31, ms[j]);
        } else {
          OutsideNestedFree(r[i]);
        }
      }
    case _ =>
  }

  lemma OutsideNestedFree(m: Member)
    requires m.key !in NestedKeys
    ensures NestedNullableFree(m)
  {
    assert m.key != "properties";
  }

  lemma {:induction false} NestedGone(m: Member)
    requires AllUnique(m.value)
    ensures NestedNullableFree(ProcessEntry(ToV31, m))
    decreases m
  {
    if m.key == "properties" && m.value.JObj? {
      var ps := m.value.members;
      forall i | 0 <= i < |ps|
        ensures NullableFree(ProcessValues(ToV31, ps)[i].value)
      {
        ProcessValuesAt(ToV31, ps, i);
        NullableGone(ps[i].value);
      }
    } else if m.key in NestedKeys {
      match m.value {
        case JObj(_) => NullableGone(m.value);
        case JArr(xs) =>
          forall i | 0 <= i < |xs|
            ensures NullableFree(ProcessItems(ToV31, xs)[i])
          {
            ProcessItemsAt(ToV31, xs, i);
            NullableGone(xs[i]);
          }
        case _ =>
      }
    }
  }

  // ---------------------------------------------------------------------------
  // The discriminator rewrites (Discriminator Object, OpenAPI 3.0.3, section 4.7.25)
  // ---------------------------------------------------------------------------

  /**
    The mapping 3.0 -> 3.1 builds from a `oneOf`: each entry holding `$ref` maps the ref's
    last `/`-segment to the ref. Iterating a non-iterable, `in` on a non-container,
    indexing a non-dict, or splitting a non-string ref raise.
  */
  function RefMapping(entries: seq<Json>): Py<Dict>
  {
    if entries == [] then Ok([])
    else
      match RefMapping(entries[..|entries| - 1])
      case Raises => Raises
      case Ok(mapping) =>
        var entry := entries[|entries| - 1];
        match PyIn("$ref", entry)
        case Raises => Raises
        case Ok(present) =>
          if !present then Ok(mapping)
          else
            match PyIndex(entry, "$ref")
            case Raises => Raises
            case Ok(ref) =>
              if !ref.JStr? then Raises
              else Ok(Put(mapping, LastPart(ref.s, '/'), ref))
  }

  /** The entries `for item in schema["oneOf"]` visits; none when there is no `oneOf`. */
  function OneOfEntries(schema: Dict): Py<seq<Json>>
  {
    if HasKey(schema, "oneOf") then PyIter(Lookup(schema, "oneOf").value) else Ok([])
  }

  /**
    3.0 -> 3.1 on one component schema: a dict discriminator with `propertyName` gets a
    `mapping` built from the schema's `oneOf`, when that mapping is non-empty.
  */
  function DiscriminatorToMapping(schema: Json): Py<Json>
  {
    if !(schema.JObj? && HasKey(schema.members, "discriminator")) then Ok(schema)
    else
      var discriminator := Lookup(schema.members, "discriminator").value;
      if !(discriminator.JObj? && HasKey(discriminator.members, "propertyName")) then Ok(schema)
      else
        var built :=
          match OneOfEntries(schema.members)
          case Raises => Raises
          case Ok(entries) => RefMapping(entries);
        match built
        case Raises => Raises
        case Ok(mapping) =>
          if mapping == [] then Ok(schema)
          else Ok(JObj(Put(schema.members, "discriminator", JObj(Put(discriminator.members, "mapping", JObj(mapping))))))
  }

  /**
    3.1 -> 3.0 on one component schema: a dict discriminator with `mapping` loses it and
    gets `propertyName: "type"` unless it has a `propertyName` already.
  */
  function DiscriminatorToProperty(schema: Json): Json
  {
    if !(schema.JObj? && HasKey(schema.members, "discriminator")) then schema
    else
      var discriminator := Lookup(schema.members, "discriminator").value;
      if !(discriminator.JObj? && HasKey(discriminator.members, "mapping")) then schema
      else
        var named :=
          if HasKey(discriminator.members, "propertyName") then discriminator.members
          else Put(discriminator.members, "propertyName", JStr("type"));
        JObj(Put(schema.members, "discriminator", JObj(Remove(named, "mapping"))))
  }

  /** The `$ref` an entry of `oneOf` carries, when the entry is a mapping holding one. */
  function EntryRef(entry: Json): Option<Json>
  {
    if entry.JObj? && HasKey(entry.members, "$ref") then Lookup(entry.members, "$ref") else None
  }

  /**
    Reference reading of the built mapping, name by name: the last entry whose string ref
    ends in that segment decides, since a later assignment overwrites an earlier one.
  */
  function LastRefNamed(entries: seq<Json>, name: string): Option<Json>
  {
    if entries == [] then None
    else
      var ref := EntryRef(entries[|entries| - 1]);
      if ref.Some? && ref.value.JStr? && LastPart(ref.value.s, '/') == name then ref
      else LastRefNamed(entries[..|entries| - 1], name)
  }

  /**
    A built mapping has distinct names, sends each name to the last ref ending in it, and
    is empty exactly when no entry holds a `$ref`.
  */
  lemma {:induction false} RefMappingLookup(entries: seq<Json>, name: string)
    requires RefMapping(entries).Ok?
    ensures UniqueKeys(RefMapping(entries).value)
    ensures Lookup(RefMapping(entries).value, name) == LastRefNamed(entries, name)
    ensures RefMapping(entries).value == [] <==> forall i :: 0 <= i < |entries| ==> EntryRef(entries[i]).None?
  {
    if entries != [] {
      var prefix := entries[..|entries| - 1];
      RefMappingLookup(prefix, name);
      var mapping := RefMapping(prefix).value;
      var entry := entries[|entries| - 1];
      assert forall i :: 0 <= i < |prefix| ==> prefix[i] == entries[i];
      if PyIn("$ref", entry) == Ok(true) {
        var ref := PyIndex(entry, "$ref").value;
        LookupPut(mapping, LastPart(ref.s, '/'), ref, name);
        PutUnique(mapping, LastPart(ref.s, '/'), ref);
        assert EntryRef(entries[|entries| - 1]).Some?;
      }
    }
  }

  /** The discriminator of a schema, when the schema is a mapping whose discriminator is one. */
  function DiscriminatorOf(schema: Json): Dict
  {
    if schema.JObj? then
      var discriminator := GetOr(schema.members, "discriminator", JNull);
      if discriminator.JObj? then discriminator.members else []
    else []
  }

  /** The discriminator's `mapping`, when it is a mapping. */
  function MappingOf(schema: Json): Dict
  {
    var mapping := GetOr(DiscriminatorOf(schema), "mapping", JNull);
    if mapping.JObj? then mapping.members else []
  }

  /**
    3.0 -> 3.1: a schema whose dict discriminator has `propertyName` and whose `oneOf` holds
    at least one `$ref` gets a `mapping` sending each ref's last segment to the ref (the last
    one for a repeated segment); the discriminator's other keys and the schema's other keys
    are kept. Every other schema is returned unchanged.
  */
  lemma {:induction false} DiscriminatorToMappingEffect(schema: Json)
    requires DiscriminatorToMapping(schema).Ok?
    ensures var r := DiscriminatorToMapping(schema).value;
      (!HasKey(DiscriminatorOf(schema), "propertyName") ==> r == schema)
      && (HasKey(DiscriminatorOf(schema), "propertyName") ==>
            OneOfEntries(schema.members).Ok?
            && var entries := OneOfEntries(schema.members).value;
            ((forall i :: 0 <= i < |entries| ==> EntryRef(entries[i]).None?) ==> r == schema)
            && ((exists i :: 0 <= i < |entries| && EntryRef(entries[i]).Some?) ==>
                  r.JObj? && Keys(r.members) == Keys(schema.members)
                  && (forall k :: k != "discriminator" ==> Lookup(r.members, k) == Lookup(schema.members, k))
                  && (forall k :: k != "mapping" ==> Lookup(DiscriminatorOf(r), k) == Lookup(DiscriminatorOf(schema), k))
                  && (forall name :: Lookup(MappingOf(r), name) == LastRefNamed(entries, name))))
  {
    if HasKey(DiscriminatorOf(schema), "propertyName") {
      var discriminator := Lookup(schema.members, "discriminator").value;
      var entries := OneOfEntries(schema.members).value;
      var mapping := RefMapping(entries).value;
      RefMappingLookup(entries, "");
      if exists i :: 0 <= i < |entries| && EntryRef(entries[i]).Some? {
        var r := DiscriminatorToMapping(schema).value;
        var newDiscriminator := Put(discriminator.members, "mapping", JObj(mapping));
        PutKeys(schema.members, "discriminator", JObj(newDiscriminator));
        forall k ensures Lookup(r.members, k) == Lookup(schema.members, k) || k == "discriminator" {
          LookupPut(schema.members, "discriminator", JObj(newDiscriminator), k);
        }
        LookupPut(schema.members, "discriminator", JObj(newDiscriminator), "discriminator");
        assert DiscriminatorOf(r) == newDiscriminator;
        forall k ensures k != "mapping" ==> Lookup(DiscriminatorOf(r), k) == Lookup(DiscriminatorOf(schema), k) {
          LookupPut(discriminator.members, "mapping", JObj(mapping), k);
        }
        LookupPut(discriminator.members, "mapping", JObj(mapping), "mapping");
        assert MappingOf(r) == mapping;
        forall name ensures Lookup(MappingOf(r), name) == LastRefNamed(entries, name) {
          RefMappingLookup(entries, name);
        }
      }
    }
  }

  /**
    3.1 -> 3.0: a schema whose dict discriminator has `mapping` loses the mapping and keeps
    or gains `propertyName` (`"type"` when it had none); the discriminator's other keys and
    the schema's other keys are kept. Every other schema is returned unchanged.
  */
  lemma {:induction false} DiscriminatorToPropertyEffect(schema: Json)
    requires UniqueKeys(DiscriminatorOf(schema))
    ensures var r := DiscriminatorToProperty(schema);
      var before := DiscriminatorOf(schema);
      (!HasKey(before, "mapping") ==> r == schema)
      && (HasKey(before, "mapping") ==>
            r.JObj? && Keys(r.members) == Keys(schema.members)
            && (forall k :: k != "discriminator" ==> Lookup(r.members, k) == Lookup(schema.members, k))
            && !HasKey(DiscriminatorOf(r), "mapping")
            && Lookup(DiscriminatorOf(r), "propertyName") == Some(GetOr(before, "propertyName", JStr("type")))
            && (forall k :: k != "mapping" && k != "propertyName" ==> Lookup(DiscriminatorOf(r), k) == Lookup(before, k)))
  {
    var before := DiscriminatorOf(schema);
    if HasKey(before, "mapping") {
      var r := DiscriminatorToProperty(schema);
      var named := if HasKey(before, "propertyName") then before else Put(before, "propertyName", JStr("type"));
      var after := Remove(named, "mapping");
      DiscriminatorInner(before);
      PutKeys(schema.members, "discriminator", JObj(after));
      forall k ensures Lookup(r.members, k) == Lookup(schema.members, k) || k == "discriminator" {
        LookupPut(schema.members, "discriminator", JObj(after), k);
      }
      LookupPut(schema.members, "discriminator", JObj(after), "discriminator");
      assert DiscriminatorOf(r) == after;
    }
  }

  /** The discriminator mapping itself: `propertyName` defaulted, `mapping` deleted, the rest kept. */
  lemma DiscriminatorInner(before: Dict)
    requires UniqueKeys(before)
    ensures var named := if HasKey(before, "propertyName") then before else Put(before, "propertyName", JStr("type"));
      var after := Remove(named, "mapping");
      !HasKey(after, "mapping")
      && Lookup(after, "propertyName") == Some(GetOr(before, "propertyName", JStr("type")))
      && forall k :: k != "mapping" && k != "propertyName" ==> Lookup(after, k) == Lookup(before, k)
  {
    var named := if HasKey(before, "propertyName") then before else Put(before, "propertyName", JStr("type"));
    PutUnique(before, "propertyName", JStr("type"));
    forall k ensures Lookup(Remove(named, "mapping"), k) == if k == "mapping" then None else Lookup(named, k) {
      LookupRemove(named, "mapping", k);
    }
    forall k ensures Lookup(named, k) == if k == "propertyName" then Some(GetOr(before, "propertyName", JStr("type"))) else Lookup(before, k) {
      LookupPut(before, "propertyName", JStr("type"), k);
    }
  }

  // ---------------------------------------------------------------------------
  // Walking the component schemas
  // ---------------------------------------------------------------------------

  /** What is done to each component schema. */
  datatype SchemaStep = Process(direction: Direction) | MappingFromOneOf | PropertyFromMapping

  function ApplyStep(step: SchemaStep, schema: Json): Py<Json>
  {
    match step
    case Process(d) => Ok(ProcessSchema(d, schema))
    case MappingFromOneOf => DiscriminatorToMapping(schema)
    case PropertyFromMapping => Ok(DiscriminatorToProperty(schema))
  }

  /**
    Every component schema rewritten by the step, keys and order unchanged; raises exactly
    when the step raises on some schema.
  */
  function MapSchemas(step: SchemaStep, ms: Dict): (r: Py<Dict>)
    ensures r.Ok? <==> forall i :: 0 <= i < |ms| ==> ApplyStep(step, ms[i].value).Ok?
    ensures r.Ok? ==>
      (|r.value| == |ms|
       && forall i :: 0 <= i < |ms| ==> r.value[i] == Member(ms[i].key, ApplyStep(step, ms[i].value).value))
  {
    if ms == [] then Ok([])
    else
      var init := ms[..|ms| - 1];
      var last := ms[|ms| - 1];
      assert forall i :: 0 <= i < |init| ==> init[i] == ms[i];
      match MapSchemas(step, init)
      case Raises => Raises
      case Ok(done) =>
        match ApplyStep(step, last.value)
        case Raises => Raises
        case Ok(v) => Ok(done + [Member(last.key, v)])
  }

  /**
    The loop `for schema in doc["components"]["schemas"].values(): <step>(schema)`, which
    rewrites each schema in place.
  */
  method RewriteSchemas(step: SchemaStep, schemas: Dict) returns (r: Py<Dict>)
    ensures r == MapSchemas(step, schemas)
  {
    var done: Dict := [];
    for i := 0 to |schemas|
      invariant MapSchemas(step, schemas[..i]) == Ok(done)
    {
      MapSchemasStep(step, schemas, i);
      var rewritten := ApplyStep(step, schemas[i].value);
      if rewritten.Raises? {
        return Raises;
      }
      done := done + [Member(schemas[i].key, rewritten.value)];
    }
    assert schemas[..|schemas|] == schemas;
    return Ok(done);
  }

  /** Walking one more schema raises when its rewrite raises, and otherwise appends it. */
  lemma MapSchemasStep(step: SchemaStep, schemas: Dict, i: nat)
    requires i < |schemas| && MapSchemas(step, schemas[..i]).Ok?
    ensures var next := MapSchemas(step, schemas[..i + 1]);
      (next.Ok? <==> ApplyStep(step, schemas[i].value).Ok?)
      && (next.Ok? ==>
            next.value == MapSchemas(step, schemas[..i]).value + [Member(schemas[i].key, ApplyStep(step, schemas[i].value).value)])
  {
    assert schemas[..i + 1][..i] == schemas[..i];
  }

  /**
    `"components" in doc and "schemas" in doc["components"]`, then the schemas mapping
    whose `.values()` are walked; `None` when either key is missing.
  */
  function ComponentSchemasOf(doc: Dict): Py<Option<Dict>>
  {
    if !HasKey(doc, "components") then Ok(None)
    else
      var components := Lookup(doc, "components").value;
      match PyIn("schemas", components)
      case Raises => Raises
      case Ok(present) =>
        if !present then Ok(None)
        else
          match PyIndex(components, "schemas")
          case Raises => Raises
          case Ok(schemas) => if schemas.JObj? then Ok(Some(schemas.members)) else Raises
  }

  /** The document with `components.schemas` replaced. */
  function WithComponentSchemas(doc: Dict, schemas: Dict): Dict
  {
    var components := GetOr(doc, "components", JObj([]));
    if components.JObj? then Put(doc, "components", JObj(Put(components.members, "schemas", JObj(schemas))))
    else doc
  }

  function ApplyToComponentSchemas(doc: Dict, step: SchemaStep): Py<Dict>
  {
    match ComponentSchemasOf(doc)
    case Raises => Raises
    case Ok(None) => Ok(doc)
    case Ok(Some(schemas)) =>
      match MapSchemas(step, schemas)
      case Raises => Raises
      case Ok(rewritten) => Ok(WithComponentSchemas(doc, rewritten))
  }

  // ---------------------------------------------------------------------------
  // Walking the operation parameters (nullable rewrites only)
  // ---------------------------------------------------------------------------

  /**
    One parameter: `"schema" in parameter` (raising on a non-container), and when true the
    value of `parameter["schema"]` (raising on a non-dict) processed.
  */
  function RewriteParameter(d: Direction, parameter: Json): Py<Json>
  {
    match PyIn("schema", parameter)
    case Raises => Raises
    case Ok(present) =>
      if !present then Ok(parameter)
      else
        match PyIndex(parameter, "schema")
        case Raises => Raises
        case Ok(schema) => Ok(JObj(Put(parameter.members, "schema", ProcessSchema(d, schema))))
  }

  function RewriteParameterList(d: Direction, parameters: seq<Json>): Py<seq<Json>>
  {
    if parameters == [] then Ok([])
    else
      match RewriteParameterList(d, parameters[..|parameters| - 1])
      case Raises => Raises
      case Ok(done) =>
        match RewriteParameter(d, parameters[|parameters| - 1])
        case Raises => Raises
        case Ok(p) => Ok(done + [p])
  }

  /**
    `for parameter in operation.get("parameters", [])`: a list is walked; iterating a dict
    yields its keys, and a key containing `"schema"` is then indexed with a string, which
    raises; a string yields one-character strings, which never contain `"schema"`; anything
    else is not iterable.
  */
  function RewriteOperation(d: Direction, operation: Dict): Py<Dict>
  {
    match GetOr(operation, "parameters", JArr([]))
    case JArr(parameters) =>
      (match RewriteParameterList(d, parameters)
       case Raises => Raises
       case Ok(rewritten) =>
         if HasKey(operation, "parameters") then Ok(Put(operation, "parameters", JArr(rewritten))) else Ok(operation))
    case JObj(keys) =>
      if exists i :: 0 <= i < |keys| && IsSubstring("schema", keys[i].key) then Raises else Ok(operation)
    case JStr(_) => Ok(operation)
    case _ => Raises
  }

  /** Every dict value of a path item processed as an operation. */
  function RewriteOperations(d: Direction, pathItem: Dict): Py<Dict>
  {
    if pathItem == [] then Ok([])
    else
      var last := pathItem[|pathItem| - 1];
      match RewriteOperations(d, pathItem[..|pathItem| - 1])
      case Raises => Raises
      case Ok(done) =>
        if !last.value.JObj? then Ok(done + [last])
        else
          match RewriteOperation(d, last.value.members)
          case Raises => Raises
          case Ok(op) => Ok(done + [Member(last.key, JObj(op))])
  }

  /** Every dict path item walked. */
  function RewritePathItems(d: Direction, paths: Dict): Py<Dict>
  {
    if paths == [] then Ok([])
    else
      var last := paths[|paths| - 1];
      match RewritePathItems(d, paths[..|paths| - 1])
      case Raises => Raises
      case Ok(done) =>
        if !last.value.JObj? then Ok(done + [last])
        else
          match RewriteOperations(d, last.value.members)
          case Raises => Raises
          case Ok(item) => Ok(done + [Member(last.key, JObj(item))])
  }

  /** `if "paths" in doc: for path_item in doc.get("paths", {}).values(): ...` */
  function RewriteParameterSchemas(d: Direction, doc: Dict): Py<Dict>
  {
    if !HasKey(doc, "paths") then Ok(doc)
    else
      var paths := Lookup(doc, "paths").value;
      if !paths.JObj? then Raises
      else
        match RewritePathItems(d, paths.members)
        case Raises => Raises
        case Ok(rewritten) => Ok(Put(doc, "paths", JObj(rewritten)))
  }

  /**
    `_apply_nullable_to_type_array` / `_apply_type_array_to_nullable`: the component schemas,
    then the schemas of operation parameters.
  */
  function ApplyNullableRewrite(d: Direction, doc: Dict): Py<Dict>
  {
    match ApplyToComponentSchemas(doc, Process(d))
    case Raises => Raises
    case Ok(doc1) => RewriteParameterSchemas(d, doc1)
  }

  // ---------------------------------------------------------------------------
  // 3.1-only features
  // ---------------------------------------------------------------------------

  predicate IsMutualTls(scheme: Json)
  {
    scheme.JObj? && Lookup(scheme.members, "type") == Some(JStr("mutualTLS"))
  }

  /** `[k for k, v in schemes.items() if isinstance(v, dict) and v.get("type") == "mutualTLS"]` */
  function MutualTlsNames(schemes: Dict): (names: seq<string>)
    ensures forall n :: n in names ==> exists i :: 0 <= i < |schemes| && schemes[i].key == n && IsMutualTls(schemes[i].value)
  {
    if schemes == [] then []
    else (if IsMutualTls(schemes[0].value) then [schemes[0].key] else []) + MutualTlsNames(schemes[1..])
  }

  /** The members whose key is not listed: what deleting each listed key leaves. */
  function Without(d: Dict, names: seq<string>): Dict
  {
    if d == [] then []
    else (if d[0].key in names then [] else [d[0]]) + Without(d[1..], names)
  }

  /** The schemes that are not mutual TLS, in their order. */
  function KeepNonMutualTls(schemes: Dict): (r: Dict)
    ensures forall i :: 0 <= i < |r| ==> !IsMutualTls(r[i].value)
  {
    if schemes == [] then []
    else (if IsMutualTls(schemes[0].value) then [] else [schemes[0]]) + KeepNonMutualTls(schemes[1..])
  }

  lemma {:induction false} WithoutSame(d: Dict, a: seq<string>, b: seq<string>)
    requires forall i :: 0 <= i < |d| ==> (d[i].key in a <==> d[i].key in b)
    ensures Without(d, a) == Without(d, b)
  {
    if d != [] {
      WithoutSame(d[1..], a, b);
    }
  }

  /** Deleting one more key from a mapping with distinct keys extends the deleted list. */
  lemma {:induction false} RemoveWithout(d: Dict, names: seq<string>, n: string)
    requires UniqueKeys(d)
    ensures Remove(Without(d, names), n) == Without(d, names + [n])
  {
    if d != [] {
      var rest := d[1..];
      assert UniqueKeys(rest) by {
        forall i, j | 0 <= i < j < |rest| ensures rest[i].key != rest[j].key {
          assert rest[i] == d[i + 1] && rest[j] == d[j + 1];
        }
      }
      if d[0].key in names {
        assert d[0].key in names + [n];
        RemoveWithout(rest, names, n);
        assert Without(d, names) == [] + Without(rest, names) == Without(rest, names);
        assert Without(d, names + [n]) == [] + Without(rest, names + [n]) == Without(rest, names + [n]);
      } else if d[0].key == n {
        forall i | 0 <= i < |rest| ensures rest[i].key in names <==> rest[i].key in names + [n] {
          assert rest[i] == d[i + 1];
        }
        WithoutSame(rest, names, names + [n]);
      } else {
        RemoveWithout(rest, names, n);
        var tail := Without(rest, names);
        assert Without(d, names) == [d[0]] + tail;
        assert ([d[0]] + tail)[1..] == tail;
      }
    }
  }

  /** Deleting the mutual-TLS names from a mapping with distinct keys keeps exactly the other schemes. */
  lemma {:induction false} WithoutMutualTls(schemes: Dict)
    requires UniqueKeys(schemes)
    ensures Without(schemes, MutualTlsNames(schemes)) == KeepNonMutualTls(schemes)
  {
    if schemes != [] {
      var rest := schemes[1..];
      var names := MutualTlsNames(schemes);
      forall i | 0 <= i < |rest|
        ensures rest[i].key in names <==> rest[i].key in MutualTlsNames(rest)
      {
        assert rest[i].key != schemes[0].key by { assert rest[i] == schemes[i + 1]; }
      }
      assert UniqueKeys(rest) by {
        forall i, j | 0 <= i < j < |rest| ensures rest[i].key != rest[j].key {
          assert rest[i] == schemes[i + 1] && rest[j] == schemes[j + 1];
        }
      }
      WithoutMutualTls(rest);
      WithoutSame(rest, names, MutualTlsNames(rest));
    }
  }

  /**
    The loop of `_remove_mutual_tls`: collects the mutual-TLS names, then deletes each one,
    noting whether any was deleted.
  */
  method RemoveMutualTlsSchemes(schemes: Dict) returns (kept: Dict, removed: bool)
    requires UniqueKeys(schemes)
    ensures kept == KeepNonMutualTls(schemes)
    ensures removed <==> MutualTlsNames(schemes) != []
  {
    var toRemove := MutualTlsNames(schemes);
    kept := schemes;
    removed := false;
    assert Without(schemes, []) == schemes by { WithoutNone(schemes); }
    for i := 0 to |toRemove|
      invariant kept == Without(schemes, toRemove[..i])
      invariant removed <==> i > 0
    {
      WithoutNext(schemes, toRemove, i);
      kept := Remove(kept, toRemove[i]);
      removed := true;
    }
    assert toRemove[..|toRemove|] == toRemove;
    WithoutMutualTls(schemes);
  }

  lemma WithoutNext(d: Dict, names: seq<string>, i: nat)
    requires UniqueKeys(d) && i < |names|
    ensures Remove(Without(d, names[..i]), names[i]) == Without(d, names[..i + 1])
  {
    RemoveWithout(d, names[..i], names[i]);
    assert names[..i] + [names[i]] == names[..i + 1];
  }

  lemma {:induction false} WithoutNone(d: Dict)
    ensures Without(d, []) == d
  {
    if d != [] {
      WithoutNone(d[1..]);
    }
  }

  /** `_remove_mutual_tls` on the document: the pruned schemes and whether any was removed. */
  function RemoveMutualTls(doc: Dict): Py<(Dict, bool)>
  {
    if !HasKey(doc, "components") then Ok((doc, false))
    else
      var components := Lookup(doc, "components").value;
      match PyIn("securitySchemes", components)
      case Raises => Raises
      case Ok(present) =>
        if !present then Ok((doc, false))
        else
          match PyIndex(components, "securitySchemes")
          case Raises => Raises
          case Ok(schemes) =>
            if !schemes.JObj? then Raises
            else
              var names := MutualTlsNames(schemes.members);
              var kept := Without(schemes.members, names);
              Ok((Put(doc, "components", JObj(Put(components.members, "securitySchemes", JObj(kept)))), names != []))
  }

  /** Every mutual-TLS scheme's name is collected. */
  lemma {:induction false} MutualTlsNamesComplete(schemes: Dict, i: nat)
    requires i < |schemes| && IsMutualTls(schemes[i].value)
    ensures schemes[i].key in MutualTlsNames(schemes)
  {
    if i > 0 {
      assert schemes[i] == schemes[1..][i - 1];
      MutualTlsNamesComplete(schemes[1..], i - 1);
    }
  }

  /** Deleting a list of names that covers every mutual-TLS scheme leaves none. */
  lemma {:induction false} WithoutFree(d: Dict, names: seq<string>)
    requires forall i :: 0 <= i < |d| && IsMutualTls(d[i].value) ==> d[i].key in names
    ensures forall j :: 0 <= j < |Without(d, names)| ==> !IsMutualTls(Without(d, names)[j].value)
  {
    if d != [] {
      assert forall i :: 0 <= i < |d[1..]| ==> d[1..][i] == d[i + 1];
      WithoutFree(d[1..], names);
    }
  }

  /** `components.securitySchemes`, when both are mappings. */
  function SecuritySchemes(doc: Dict): Dict
  {
    var components := GetOr(doc, "components", JNull);
    if components.JObj? then
      var schemes := GetOr(components.members, "securitySchemes", JNull);
      if schemes.JObj? then schemes.members else []
    else []
  }

  predicate HasMutualTls(schemes: Dict)
  {
    exists i :: 0 <= i < |schemes| && IsMutualTls(schemes[i].value)
  }

  /**
    `_remove_mutual_tls` leaves no mutual-TLS scheme, keeps the document's keys and every
    top-level entry but `components`, and reports a removal exactly when the document had a
    mutual-TLS scheme.
  */
  lemma {:induction false} RemoveMutualTlsEffect(doc: Dict)
    requires RemoveMutualTls(doc).Ok?
    ensures var (out, removed) := RemoveMutualTls(doc).value;
      Keys(out) == Keys(doc)
      && (forall k :: k != "components" ==> Lookup(out, k) == Lookup(doc, k))
      && (forall j :: 0 <= j < |SecuritySchemes(out)| ==> !IsMutualTls(SecuritySchemes(out)[j].value))
      && (removed <==> HasMutualTls(SecuritySchemes(doc)))
  {
    var (out, removed) := RemoveMutualTls(doc).value;
    if HasKey(doc, "components") && PyIn("securitySchemes", Lookup(doc, "components").value) == Ok(true) {
      var components := Lookup(doc, "components").value;
      var schemes := PyIndex(components, "securitySchemes").value;
      var names := MutualTlsNames(schemes.members);
      var kept := Without(schemes.members, names);
      var newComponents := JObj(Put(components.members, "securitySchemes", JObj(kept)));
      PutKeys(doc, "components", newComponents);
      forall k ensures k != "components" ==> Lookup(out, k) == Lookup(doc, k) {
        LookupPut(doc, "components", newComponents, k);
      }
      LookupPut(doc, "components", newComponents, "components");
      LookupPut(components.members, "securitySchemes", JObj(kept), "securitySchemes");
      assert SecuritySchemes(out) == kept;
      assert SecuritySchemes(doc) == schemes.members;
      forall i | 0 <= i < |schemes.members| && IsMutualTls(schemes.members[i].value)
        ensures schemes.members[i].key in names
      {
        MutualTlsNamesComplete(schemes.members, i);
      }
      WithoutFree(schemes.members, names);
      if removed {
        var n := names[0];
        assert n in names;
        var i :| 0 <= i < |schemes.members| && schemes.members[i].key == n && IsMutualTls(schemes.members[i].value);
      }
    } else {
      assert out == doc;
      if HasKey(doc, "components") && Lookup(doc, "components").value.JObj? {
        assert !HasKey(Lookup(doc, "components").value.members, "securitySchemes");
      }
      assert SecuritySchemes(doc) == [];
    }
  }

  /**
    `_move_license_identifier`: a dict `info.license` holding `identifier` loses it, and
    gets it as `name` unless it has a `name` already.
  */
  function MoveLicenseIdentifier(doc: Dict): (Dict, bool)
  {
    var info := GetOr(doc, "info", JNull);
    if !(info.JObj? && HasKey(info.members, "license")) then (doc, false)
    else
      var license := Lookup(info.members, "license").value;
      if !(license.JObj? && HasKey(license.members, "identifier")) then (doc, false)
      else
        var named :=
          if HasKey(license.members, "name") then license.members
          else Put(license.members, "name", Lookup(license.members, "identifier").value);
        var moved := Remove(named, "identifier");
        (Put(doc, "info", JObj(Put(info.members, "license", JObj(moved)))), true)
  }

  /** `info.license`, when both are mappings. */
  function LicenseOf(doc: Dict): Option<Dict>
  {
    var info := GetOr(doc, "info", JNull);
    if info.JObj? then
      var license := GetOr(info.members, "license", JNull);
      if license.JObj? then Some(license.members) else None
    else None
  }

  predicate HasLicenseIdentifier(doc: Dict)
  {
    LicenseOf(doc).Some? && HasKey(LicenseOf(doc).value, "identifier")
  }

  /**
    The license move happens exactly when the license mapping has `identifier`; it keeps the
    document's keys and every top-level entry but `info`.
  */
  lemma {:induction false} MoveLicenseFrame(doc: Dict)
    ensures var (out, moved) := MoveLicenseIdentifier(doc);
      (moved <==> HasLicenseIdentifier(doc))
      && (!moved ==> out == doc)
      && Keys(out) == Keys(doc)
      && (forall k :: k != "info" ==> Lookup(out, k) == Lookup(doc, k))
  {
    var (out, moved) := MoveLicenseIdentifier(doc);
    if moved {
      var info := Lookup(doc, "info").value;
      var before := LicenseOf(doc).value;
      var named := if HasKey(before, "name") then before else Put(before, "name", Lookup(before, "identifier").value);
      var newInfo := JObj(Put(info.members, "license", JObj(Remove(named, "identifier"))));
      assert out == Put(doc, "info", newInfo);
      PutKeys(doc, "info", newInfo);
      forall k ensures k != "info" ==> Lookup(out, k) == Lookup(doc, k) {
        LookupPut(doc, "info", newInfo, k);
      }
    }
  }

  /**
    The moved license has no `identifier`, keeps its `name` or takes the identifier as
    `name`, and keeps every other entry.
  */
  lemma {:induction false} MoveLicenseEffect(doc: Dict)
    requires LicenseOf(doc).Some? ==> UniqueKeys(LicenseOf(doc).value)
    ensures var (out, moved) := MoveLicenseIdentifier(doc);
      moved ==>
        var before := LicenseOf(doc).value;
        LicenseOf(out).Some?
        && !HasKey(LicenseOf(out).value, "identifier")
        && Lookup(LicenseOf(out).value, "name") == Some(GetOr(before, "name", Lookup(before, "identifier").value))
        && (forall k :: k != "identifier" && k != "name" ==> Lookup(LicenseOf(out).value, k) == Lookup(before, k))
  {
    var (out, moved) := MoveLicenseIdentifier(doc);
    if moved {
      var info := Lookup(doc, "info").value;
      var before := LicenseOf(doc).value;
      var named := if HasKey(before, "name") then before else Put(before, "name", Lookup(before, "identifier").value);
      var after := Remove(named, "identifier");
      var newInfo := JObj(Put(info.members, "license", JObj(after)));
      PutUnique(before, "name", Lookup(before, "identifier").value);
      LookupPut(doc, "info", newInfo, "info");
      LookupPut(info.members, "license", JObj(after), "license");
      assert LicenseOf(out) == Some(after);
      forall k ensures Lookup(after, k) == if k == "identifier" then None else Lookup(named, k) {
        LookupRemove(named, "identifier", k);
      }
      forall k ensures Lookup(named, k) == if k == "name" then Some(GetOr(before, "name", Lookup(before, "identifier").value)) else Lookup(before, k) {
        LookupPut(before, "name", Lookup(before, "identifier").value, k);
      }
    }
  }

  /** `has_conditionals`: an `if`, `then` or `else` key in any mapping of the tree. */
  function HasConditionals(j: Json): bool
    decreases j
  {
    match j
    case JObj(ms) => HasTopLevelConditional(j) || exists i :: 0 <= i < |ms| && HasConditionals(ms[i].value)
    case JArr(xs) => exists i :: 0 <= i < |xs| && HasConditionals(xs[i])
    case _ => false
  }

  /** `_check_json_schema_conditionals`: does some component schema hold a conditional? */
  function ComponentConditionals(doc: Dict): Py<bool>
  {
    match ComponentSchemasOf(doc)
    case Raises => Raises
    case Ok(None) => Ok(false)
    case Ok(Some(schemas)) => Ok(exists i :: 0 <= i < |schemas| && HasConditionals(schemas[i].value))
  }

  // ---------------------------------------------------------------------------
  // The two directions
  // ---------------------------------------------------------------------------

  const WebhooksWarning: string := "Webhooks removed (not supported in 3.0.x)"
  const MutualTlsWarning: string := "mutualTLS security scheme removed (not supported in 3.0.x)"
  const LicenseWarning: string := "license.identifier moved to license.name"
  const ConditionalsError: string := "JSON Schema conditionals (if/then/else) not supported in 3.0.x"
  const ConditionalsWarning: string := "JSON Schema conditionals found; may not convert properly to 3.0.x"

  /** What a direction hands back: the rewritten document, its warnings and its errors. */
  datatype Rewritten = Rewritten(doc: Dict, warnings: seq<string>, errors: seq<string>)

  /** `_convert_30_to_31`: the nullable rewrite, then the discriminator mappings; no warnings or errors. */
  function ConvertTo31(doc: Dict): Py<Rewritten>
  {
    match ApplyNullableRewrite(ToV31, doc)
    case Raises => Raises
    case Ok(doc1) =>
      match ApplyToComponentSchemas(doc1, MappingFromOneOf)
      case Raises => Raises
      case Ok(doc2) => Ok(Rewritten(doc2, [], []))
  }

  /** The part of `_convert_31_to_30` that rewrites schemas: type lists, then discriminators. */
  function SchemasTo30(doc: Dict): Py<Dict>
  {
    match ApplyNullableRewrite(ToV30, doc)
    case Raises => Raises
    case Ok(doc1) => ApplyToComponentSchemas(doc1, PropertyFromMapping)
  }

  /** `del doc["webhooks"]` when present, and whether it was. */
  function RemoveWebhooks(doc: Dict): (Dict, bool)
  {
    if HasKey(doc, "webhooks") then (Remove(doc, "webhooks"), true) else (doc, false)
  }

  /**
    `_convert_31_to_30` after the schema rewrites: the removal of `webhooks` and of
    mutual-TLS schemes and the license move, each with its warning, then the conditionals
    check, an error in strict mode and a warning otherwise.
  */
  function RemoveV31Features(doc: Dict, strict: bool): Py<Rewritten>
  {
    var (doc2, hadWebhooks) := RemoveWebhooks(doc);
    match RemoveMutualTls(doc2)
    case Raises => Raises
    case Ok(pruned) =>
      var (doc3, removed) := pruned;
      var (doc4, moved) := MoveLicenseIdentifier(doc3);
      match ComponentConditionals(doc4)
      case Raises => Raises
      case Ok(conditionals) =>
        var warnings :=
          (if hadWebhooks then [WebhooksWarning] else [])
          + (if removed then [MutualTlsWarning] else [])
          + (if moved then [LicenseWarning] else [])
          + (if conditionals && !strict then [ConditionalsWarning] else []);
        var errors := if conditionals && strict then [ConditionalsError] else [];
        Ok(Rewritten(doc4, warnings, errors))
  }

  /** `_convert_31_to_30`: the schema rewrites, then the removal of the 3.1-only features. */
  function ConvertTo30(doc: Dict, strict: bool): Py<Rewritten>
  {
    match SchemasTo30(doc)
    case Raises => Raises
    case Ok(doc1) => RemoveV31Features(doc1, strict)
  }

  /**
    The component-schema walk replaces `components.schemas` by the rewritten schemas and
    touches nothing else: the document's keys, its other top-level entries and its security
    schemes are kept.
  */
  lemma {:induction false} ApplyToComponentSchemasEffect(doc: Dict, step: SchemaStep)
    requires ApplyToComponentSchemas(doc, step).Ok?
    ensures var out := ApplyToComponentSchemas(doc, step).value;
      Keys(out) == Keys(doc)
      && (forall k :: k != "components" ==> Lookup(out, k) == Lookup(doc, k))
      && SecuritySchemes(out) == SecuritySchemes(doc)
      && (ComponentSchemasOf(doc) == Ok(None) ==> out == doc)
      && (ComponentSchemasOf(doc).Ok? && ComponentSchemasOf(doc).value.Some? ==>
            ComponentSchemasOf(out) == Ok(Some(MapSchemas(step, ComponentSchemasOf(doc).value.value).value)))
  {
    var out := ApplyToComponentSchemas(doc, step).value;
    if ComponentSchemasOf(doc).value.Some? {
      var components := Lookup(doc, "components").value;
      var rewritten := MapSchemas(step, ComponentSchemasOf(doc).value.value).value;
      var newComponents := JObj(Put(components.members, "schemas", JObj(rewritten)));
      assert out == Put(doc, "components", newComponents);
      PutKeys(doc, "components", newComponents);
      forall k ensures k != "components" ==> Lookup(out, k) == Lookup(doc, k) {
        LookupPut(doc, "components", newComponents, k);
      }
      LookupPut(doc, "components", newComponents, "components");
      LookupPut(components.members, "schemas", JObj(rewritten), "securitySchemes");
      LookupPut(components.members, "schemas", JObj(rewritten), "schemas");
    }
  }

  /** The parameter walk replaces `paths` and touches no other top-level entry. */
  lemma {:induction false} RewriteParameterSchemasFrame(d: Direction, doc: Dict)
    requires RewriteParameterSchemas(d, doc).Ok?
    ensures var out := RewriteParameterSchemas(d, doc).value;
      Keys(out) == Keys(doc) && forall k :: k != "paths" ==> Lookup(out, k) == Lookup(doc, k)
  {
    if HasKey(doc, "paths") {
      var out := RewriteParameterSchemas(d, doc).value;
      var rewritten := RewritePathItems(d, Lookup(doc, "paths").value.members).value;
      PutKeys(doc, "paths", JObj(rewritten));
      forall k ensures k != "paths" ==> Lookup(out, k) == Lookup(doc, k) {
        LookupPut(doc, "paths", JObj(rewritten), k);
      }
    }
  }

  // ---------------------------------------------------------------------------
  // What the parameter walk does, parameter by parameter
  // ---------------------------------------------------------------------------

  /** A parameter after the walk: a mapping holding `schema` has that schema processed, anything else is kept. */
  predicate ParameterRewritten(d: Direction, before: Json, after: Json)
  {
    if before.JObj? && HasKey(before.members, "schema")
    then after == JObj(Put(before.members, "schema", ProcessSchema(d, Lookup(before.members, "schema").value)))
    else after == before
  }

  /**
    An operation after the walk: when it is a mapping whose `parameters` is a list, that list
    is replaced in place by one of the same length whose every parameter is rewritten;
    any other operation is kept.
  */
  predicate OperationRewritten(d: Direction, before: Json, after: Json)
  {
    if before.JObj? && HasKey(before.members, "parameters") && Lookup(before.members, "parameters").value.JArr?
    then
      var ps := Lookup(before.members, "parameters").value.items;
      after.JObj? && HasKey(after.members, "parameters") && Lookup(after.members, "parameters").value.JArr?
      && var qs := Lookup(after.members, "parameters").value.items;
         after == JObj(Put(before.members, "parameters", JArr(qs)))
         && |qs| == |ps| && forall k :: 0 <= k < |ps| ==> ParameterRewritten(d, ps[k], qs[k])
    else after == before
  }

  /** A path item after the walk: a mapping keeps its keys and order and has every operation rewritten. */
  predicate PathItemRewritten(d: Direction, before: Json, after: Json)
  {
    if before.JObj?
    then
      after.JObj? && |after.members| == |before.members|
      && forall j :: 0 <= j < |before.members| ==>
           after.members[j].key == before.members[j].key
           && OperationRewritten(d, before.members[j].value, after.members[j].value)
    else after == before
  }

  /** The `paths` mapping after the walk: same keys and order, every path item rewritten. */
  predicate PathsRewritten(d: Direction, before: Dict, after: Dict)
  {
    |after| == |before|
    && forall i :: 0 <= i < |before| ==>
         after[i].key == before[i].key && PathItemRewritten(d, before[i].value, after[i].value)
  }

  lemma {:induction false} RewriteParameterListAt(d: Direction, ps: seq<Json>, k: nat)
    requires RewriteParameterList(d, ps).Ok? && k < |ps|
    ensures |RewriteParameterList(d, ps).value| == |ps|
    ensures RewriteParameter(d, ps[k]).Ok? && RewriteParameterList(d, ps).value[k] == RewriteParameter(d, ps[k]).value
  {
    var init := ps[..|ps| - 1];
    if k < |init| {
      RewriteParameterListAt(d, init, k);
      assert init[k] == ps[k];
    } else if init != [] {
      RewriteParameterListAt(d, init, 0);
    }
  }

  lemma RewriteParameterEffect(d: Direction, parameter: Json)
    requires RewriteParameter(d, parameter).Ok?
    ensures ParameterRewritten(d, parameter, RewriteParameter(d, parameter).value)
  {
  }

  /** One operation: its parameter list, when it is a list, is rewritten parameter by parameter. */
  lemma {:induction false} RewriteOperationEffect(d: Direction, operation: Dict)
    requires RewriteOperation(d, operation).Ok?
    ensures OperationRewritten(d, JObj(operation), JObj(RewriteOperation(d, operation).value))
  {
    var out := RewriteOperation(d, operation).value;
    if HasKey(operation, "parameters") && Lookup(operation, "parameters").value.JArr? {
      var ps := Lookup(operation, "parameters").value.items;
      var qs := RewriteParameterList(d, ps).value;
      LookupPut(operation, "parameters", JArr(qs), "parameters");
      forall k | 0 <= k < |ps|
        ensures |qs| == |ps| && ParameterRewritten(d, ps[k], qs[k])
      {
        RewriteParameterListAt(d, ps, k);
        RewriteParameterEffect(d, ps[k]);
      }
    }
  }

  lemma {:induction false} RewriteOperationsAt(d: Direction, item: Dict, j: nat)
    requires RewriteOperations(d, item).Ok? && j < |item|
    ensures var out := RewriteOperations(d, item).value;
      |out| == |item| && out[j].key == item[j].key
      && OperationRewritten(d, item[j].value, out[j].value)
  {
    var init := item[..|item| - 1];
    if j < |init| {
      RewriteOperationsAt(d, init, j);
      assert init[j] == item[j];
    } else {
      if init != [] {
        RewriteOperationsAt(d, init, 0);
      }
      if item[j].value.JObj? {
        RewriteOperationEffect(d, item[j].value.members);
      }
    }
  }

  lemma {:induction false} RewritePathItemsAt(d: Direction, paths: Dict, i: nat)
    requires RewritePathItems(d, paths).Ok? && i < |paths|
    ensures var out := RewritePathItems(d, paths).value;
      |out| == |paths| && out[i].key == paths[i].key
      && PathItemRewritten(d, paths[i].value, out[i].value)
  {
    var init := paths[..|paths| - 1];
    if i < |init| {
      RewritePathItemsAt(d, init, i);
      assert init[i] == paths[i];
    } else {
      if init != [] {
        RewritePathItemsAt(d, init, 0);
      }
      if paths[i].value.JObj? {
        var item := paths[i].value.members;
        forall j | 0 <= j < |item|
          ensures var out := RewriteOperations(d, item).value;
            |out| == |item| && out[j].key == item[j].key && OperationRewritten(d, item[j].value, out[j].value)
        {
          RewriteOperationsAt(d, item, j);
        }
      }
    }
  }

  /**
    The parameter walk of `_apply_nullable_to_type_array` / `_apply_type_array_to_nullable`:
    a document without `paths` is kept; otherwise `paths` is a mapping and is replaced by
    the same path items, in which every mapping parameter of every operation that holds
    `schema` has that schema processed, and nothing else changes.
  */
  lemma {:induction false} RewriteParameterSchemasEffect(d: Direction, doc: Dict)
    requires RewriteParameterSchemas(d, doc).Ok?
    ensures var out := RewriteParameterSchemas(d, doc).value;
      (!HasKey(doc, "paths") ==> out == doc)
      && (HasKey(doc, "paths") ==>
            Lookup(doc, "paths").value.JObj? && HasKey(out, "paths") && Lookup(out, "paths").value.JObj?
            && PathsRewritten(d, Lookup(doc, "paths").value.members, Lookup(out, "paths").value.members))
  {
    if HasKey(doc, "paths") {
      var paths := Lookup(doc, "paths").value.members;
      var rewritten := RewritePathItems(d, paths).value;
      LookupPut(doc, "paths", JObj(rewritten), "paths");
      forall i | 0 <= i < |paths|
        ensures |rewritten| == |paths| && rewritten[i].key == paths[i].key
             && PathItemRewritten(d, paths[i].value, rewritten[i].value)
      {
        RewritePathItemsAt(d, paths, i);
      }
      if paths == [] {
        assert rewritten == [];
      }
    }
  }

  /** The schema rewrites of 3.1 -> 3.0 touch only `components.schemas` and `paths`. */
  lemma {:induction false} SchemasTo30Frame(doc: Dict)
    requires SchemasTo30(doc).Ok?
    ensures var out := SchemasTo30(doc).value;
      Keys(out) == Keys(doc)
      && (forall k :: k != "components" && k != "paths" ==> Lookup(out, k) == Lookup(doc, k))
      && SecuritySchemes(out) == SecuritySchemes(doc)
  {
    var doc1 := ApplyToComponentSchemas(doc, Process(ToV30)).value;
    var doc2 := RewriteParameterSchemas(ToV30, doc1).value;
    ApplyToComponentSchemasEffect(doc, Process(ToV30));
    RewriteParameterSchemasFrame(ToV30, doc1);
    ApplyToComponentSchemasEffect(doc2, PropertyFromMapping);
    assert SecuritySchemes(doc2) == SecuritySchemes(doc1) by {
      assert Lookup(doc2, "components") == Lookup(doc1, "components");
    }
  }

  /** Removing `webhooks` from a mapping with distinct keys leaves every other entry. */
  lemma {:induction false} RemoveWebhooksEffect(doc: Dict)
    requires UniqueKeys(doc)
    ensures var (out, had) := RemoveWebhooks(doc);
      UniqueKeys(out) && (had <==> HasKey(doc, "webhooks"))
      && forall k :: Lookup(out, k) == if k == "webhooks" then None else Lookup(doc, k)
  {
    RemoveUnique(doc, "webhooks");
    forall k ensures Lookup(RemoveWebhooks(doc).0, k) == if k == "webhooks" then None else Lookup(doc, k) {
      LookupRemove(doc, "webhooks", k);
    }
  }

  /**
    Removing the 3.1-only features from a document with distinct top-level keys leaves no
    `webhooks` and no mutual-TLS scheme; the warnings name, in order, the webhooks, the
    mutual-TLS schemes and the license identifier the input had, then the conditionals the
    result still holds (a warning when permissive; the one error when strict).
  */
  lemma {:induction false} RemoveV31FeaturesEffect(doc: Dict, strict: bool)
    requires UniqueKeys(doc) && RemoveV31Features(doc, strict).Ok?
    ensures var out := RemoveV31Features(doc, strict).value;
      var conditionals := ComponentConditionals(out.doc) == Ok(true);
      UniqueKeys(out.doc)
      && !HasKey(out.doc, "webhooks")
      && (forall j :: 0 <= j < |SecuritySchemes(out.doc)| ==> !IsMutualTls(SecuritySchemes(out.doc)[j].value))
      && out.warnings ==
           (if HasKey(doc, "webhooks") then [WebhooksWarning] else [])
           + (if HasMutualTls(SecuritySchemes(doc)) then [MutualTlsWarning] else [])
           + (if HasLicenseIdentifier(doc) then [LicenseWarning] else [])
           + (if conditionals && !strict then [ConditionalsWarning] else [])
      && out.errors == (if conditionals && strict then [ConditionalsError] else [])
  {
    var (doc2, hadWebhooks) := RemoveWebhooks(doc);
    WebhooksStage(doc);
    var (doc3, removed) := RemoveMutualTls(doc2).value;
    MutualTlsStage(doc2);
    LicenseStage(doc3);
  }

  lemma WebhooksStage(doc: Dict)
    requires UniqueKeys(doc)
    ensures var (doc2, had) := RemoveWebhooks(doc);
      UniqueKeys(doc2) && !HasKey(doc2, "webhooks") && (had <==> HasKey(doc, "webhooks"))
      && SecuritySchemes(doc2) == SecuritySchemes(doc) && LicenseOf(doc2) == LicenseOf(doc)
  {
    var doc2 := RemoveWebhooks(doc).0;
    RemoveWebhooksEffect(doc);
    assert Lookup(doc2, "components") == Lookup(doc, "components");
    assert Lookup(doc2, "info") == Lookup(doc, "info");
  }

  lemma MutualTlsStage(doc2: Dict)
    requires UniqueKeys(doc2) && !HasKey(doc2, "webhooks") && RemoveMutualTls(doc2).Ok?
    ensures var (doc3, removed) := RemoveMutualTls(doc2).value;
      UniqueKeys(doc3) && !HasKey(doc3, "webhooks") && LicenseOf(doc3) == LicenseOf(doc2)
      && (forall j :: 0 <= j < |SecuritySchemes(doc3)| ==> !IsMutualTls(SecuritySchemes(doc3)[j].value))
      && (removed <==> HasMutualTls(SecuritySchemes(doc2)))
  {
    var doc3 := RemoveMutualTls(doc2).value.0;
    RemoveMutualTlsEffect(doc2);
    SameKeysUnique(doc2, doc3);
    assert Lookup(doc3, "webhooks") == Lookup(doc2, "webhooks");
    assert Lookup(doc3, "info") == Lookup(doc2, "info");
  }

  lemma LicenseStage(doc3: Dict)
    requires UniqueKeys(doc3) && !HasKey(doc3, "webhooks")
    ensures var (doc4, moved) := MoveLicenseIdentifier(doc3);
      UniqueKeys(doc4) && !HasKey(doc4, "webhooks") && SecuritySchemes(doc4) == SecuritySchemes(doc3)
      && (moved <==> HasLicenseIdentifier(doc3))
  {
    var doc4 := MoveLicenseIdentifier(doc3).0;
    MoveLicenseFrame(doc3);
    SameKeysUnique(doc3, doc4);
    assert Lookup(doc4, "webhooks") == Lookup(doc3, "webhooks");
    assert Lookup(doc4, "components") == Lookup(doc3, "components");
  }

  /**
    The schema rewrites of 3.1 -> 3.0 keep what the feature removal looks at: distinct
    top-level keys, the `webhooks` entry, the security schemes and the license.
  */
  lemma {:induction false} SchemasTo30Keeps(doc: Dict)
    requires UniqueKeys(doc) && SchemasTo30(doc).Ok?
    ensures var doc1 := SchemasTo30(doc).value;
      UniqueKeys(doc1)
      && HasKey(doc1, "webhooks") == HasKey(doc, "webhooks")
      && SecuritySchemes(doc1) == SecuritySchemes(doc)
      && LicenseOf(doc1) == LicenseOf(doc)
  {
    var doc1 := SchemasTo30(doc).value;
    SchemasTo30Frame(doc);
    SameKeysUnique(doc, doc1);
    assert Lookup(doc1, "webhooks") == Lookup(doc, "webhooks");
    assert Lookup(doc1, "info") == Lookup(doc, "info");
  }

  /**
    3.1 -> 3.0 on a document with distinct top-level keys: the result has no `webhooks` and
    no mutual-TLS scheme; the warnings name, in order, the webhooks, the mutual-TLS schemes
    and the license identifier the input had, then the conditionals the result still holds
    (a warning when permissive; the one error when strict).
  */
  lemma {:induction false} ConvertTo30Effects(doc: Dict, strict: bool)
    requires UniqueKeys(doc) && ConvertTo30(doc, strict).Ok?
    ensures var out := ConvertTo30(doc, strict).value;
      var conditionals := ComponentConditionals(out.doc) == Ok(true);
      UniqueKeys(out.doc)
      && !HasKey(out.doc, "webhooks")
      && (forall j :: 0 <= j < |SecuritySchemes(out.doc)| ==> !IsMutualTls(SecuritySchemes(out.doc)[j].value))
      && out.warnings ==
           (if HasKey(doc, "webhooks") then [WebhooksWarning] else [])
           + (if HasMutualTls(SecuritySchemes(doc)) then [MutualTlsWarning] else [])
           + (if HasLicenseIdentifier(doc) then [LicenseWarning] else [])
           + (if conditionals && !strict then [ConditionalsWarning] else [])
      && out.errors == (if conditionals && strict then [ConditionalsError] else [])
  {
    var doc1 := SchemasTo30(doc).value;
    SchemasTo30Keeps(doc);
    RemoveV31FeaturesEffect(doc1, strict);
  }

  /**
    The schema rewrites of 3.1 -> 3.0: each component schema comes out with its type list
    turned into `nullable` and then its discriminator `mapping` turned into `propertyName`;
    `paths` comes out with every operation-parameter schema processed.
  */
  lemma {:induction false} SchemasTo30Schemas(doc: Dict)
    requires SchemasTo30(doc).Ok?
    ensures var out := SchemasTo30(doc).value;
      ComponentSchemasOf(doc) == Ok(None) ==> ComponentSchemasOf(out) == Ok(None)
    ensures var out := SchemasTo30(doc).value;
      ComponentSchemasOf(doc).Ok? && ComponentSchemasOf(doc).value.Some? ==>
        var schemas := ComponentSchemasOf(doc).value.value;
        MapSchemas(Process(ToV30), schemas).Ok?
        && var processed := MapSchemas(Process(ToV30), schemas).value;
           MapSchemas(PropertyFromMapping, processed).Ok?
           && ComponentSchemasOf(out) == Ok(Some(MapSchemas(PropertyFromMapping, processed).value))
    ensures var out := SchemasTo30(doc).value;
      HasKey(doc, "paths") ==>
        Lookup(doc, "paths").value.JObj? && HasKey(out, "paths") && Lookup(out, "paths").value.JObj?
        && PathsRewritten(ToV30, Lookup(doc, "paths").value.members, Lookup(out, "paths").value.members)
  {
    var doc1 := ApplyToComponentSchemas(doc, Process(ToV30)).value;
    var doc2 := RewriteParameterSchemas(ToV30, doc1).value;
    var out := SchemasTo30(doc).value;
    if ComponentSchemasOf(doc).Ok? {
      ApplyToComponentSchemasEffect(doc, Process(ToV30));
      RewriteParameterSchemasFrame(ToV30, doc1);
      ApplyToComponentSchemasEffect(doc2, PropertyFromMapping);
      assert Lookup(doc2, "components") == Lookup(doc1, "components");
      assert ComponentSchemasOf(doc2) == ComponentSchemasOf(doc1);
    }
    if HasKey(doc, "paths") {
      assert Lookup(doc1, "paths") == Lookup(doc, "paths") by {
        ApplyToComponentSchemasEffect(doc, Process(ToV30));
      }
      assert Lookup(out, "paths") == Lookup(doc2, "paths") by {
        ApplyToComponentSchemasEffect(doc2, PropertyFromMapping);
      }
      RewriteParameterSchemasEffect(ToV30, doc1);
    }
  }

  /**
    Removing the 3.1-only features from a document with distinct top-level keys keeps its
    `paths` and its component schemas: only `webhooks`, the security schemes and the license
    change.
  */
  lemma {:induction false} RemoveV31FeaturesKeepsSchemas(doc: Dict, strict: bool)
    requires UniqueKeys(doc) && RemoveV31Features(doc, strict).Ok?
    ensures var out := RemoveV31Features(doc, strict).value.doc;
      Lookup(out, "paths") == Lookup(doc, "paths") && ComponentSchemasOf(out) == ComponentSchemasOf(doc)
  {
    RemoveV31FeaturesDoc(doc, strict);
    RemovalStagesKeepSchemas(doc);
  }

  /** Each of the three removals keeps `paths` and the component schemas. */
  lemma {:induction false} RemovalStagesKeepSchemas(doc: Dict)
    requires UniqueKeys(doc) && RemoveMutualTls(RemoveWebhooks(doc).0).Ok?
    ensures var doc3 := RemoveMutualTls(RemoveWebhooks(doc).0).value.0;
      var out := MoveLicenseIdentifier(doc3).0;
      Lookup(out, "paths") == Lookup(doc, "paths") && ComponentSchemasOf(out) == ComponentSchemasOf(doc)
  {
    var doc2 := RemoveWebhooks(doc).0;
    WebhooksKeepSchemas(doc);
    MutualTlsKeepsSchemas(doc2);
    var doc3 := RemoveMutualTls(doc2).value.0;
    LicenseKeepsSchemas(doc3);
  }

  lemma WebhooksKeepSchemas(doc: Dict)
    requires UniqueKeys(doc)
    ensures var out := RemoveWebhooks(doc).0;
      Lookup(out, "paths") == Lookup(doc, "paths") && ComponentSchemasOf(out) == ComponentSchemasOf(doc)
  {
    assert |"paths"| != |"webhooks"| && |"components"| != |"webhooks"|;
    RemoveWebhooksEffect(doc);
    assert Lookup(RemoveWebhooks(doc).0, "components") == Lookup(doc, "components");
  }

  lemma LicenseKeepsSchemas(doc: Dict)
    ensures var out := MoveLicenseIdentifier(doc).0;
      Lookup(out, "paths") == Lookup(doc, "paths") && ComponentSchemasOf(out) == ComponentSchemasOf(doc)
  {
    assert |"paths"| != |"info"| && |"components"| != |"info"|;
    MoveLicenseFrame(doc);
    assert Lookup(MoveLicenseIdentifier(doc).0, "components") == Lookup(doc, "components");
  }

  /** The document the feature removal hands back is the one its three rewrites give. */
  lemma RemoveV31FeaturesDoc(doc: Dict, strict: bool)
    requires RemoveV31Features(doc, strict).Ok?
    ensures var doc2 := RemoveWebhooks(doc).0;
      RemoveMutualTls(doc2).Ok?
      && RemoveV31Features(doc, strict).value.doc == MoveLicenseIdentifier(RemoveMutualTls(doc2).value.0).0
  {
  }

  /** Documents whose `components` mappings agree on `schemas` have the same component schemas. */
  lemma ComponentSchemasAgree(a: Dict, b: Dict)
    requires Lookup(a, "components").Some? && Lookup(a, "components").value.JObj?
    requires Lookup(b, "components").Some? && Lookup(b, "components").value.JObj?
    requires Lookup(Lookup(a, "components").value.members, "schemas") == Lookup(Lookup(b, "components").value.members, "schemas")
    ensures ComponentSchemasOf(a) == ComponentSchemasOf(b)
  {
  }

  /** `_remove_mutual_tls` keeps `paths` and the component schemas. */
  lemma {:induction false} MutualTlsKeepsSchemas(doc: Dict)
    requires RemoveMutualTls(doc).Ok?
    ensures var out := RemoveMutualTls(doc).value.0;
      Lookup(out, "paths") == Lookup(doc, "paths") && ComponentSchemasOf(out) == ComponentSchemasOf(doc)
  {
    var out := RemoveMutualTls(doc).value.0;
    if out != doc {
      var components := Lookup(doc, "components").value;
      var schemes := PyIndex(components, "securitySchemes").value;
      var kept := Without(schemes.members, MutualTlsNames(schemes.members));
      var newComponents := JObj(Put(components.members, "securitySchemes", JObj(kept)));
      assert out == Put(doc, "components", newComponents);
      LookupPut(doc, "components", newComponents, "components");
      LookupPut(doc, "components", newComponents, "paths");
      LookupPut(components.members, "securitySchemes", JObj(kept), "schemas");
      ComponentSchemasAgree(out, doc);
    }
  }

  /**
    3.1 -> 3.0 on a document with distinct top-level keys: each component schema comes out
    with its type list turned into `nullable` and then its discriminator `mapping` turned
    into `propertyName`; `paths` comes out with every operation-parameter schema processed.
  */
  lemma {:induction false} ConvertTo30Schemas(doc: Dict, strict: bool)
    requires UniqueKeys(doc) && ConvertTo30(doc, strict).Ok?
    ensures var out := ConvertTo30(doc, strict).value;
      ComponentSchemasOf(doc) == Ok(None) ==> ComponentSchemasOf(out.doc) == Ok(None)
    ensures var out := ConvertTo30(doc, strict).value;
      ComponentSchemasOf(doc).Ok? && ComponentSchemasOf(doc).value.Some? ==>
        var schemas := ComponentSchemasOf(doc).value.value;
        MapSchemas(Process(ToV30), schemas).Ok?
        && var processed := MapSchemas(Process(ToV30), schemas).value;
           MapSchemas(PropertyFromMapping, processed).Ok?
           && ComponentSchemasOf(out.doc) == Ok(Some(MapSchemas(PropertyFromMapping, processed).value))
    ensures var out := ConvertTo30(doc, strict).value;
      HasKey(doc, "paths") ==>
        Lookup(doc, "paths").value.JObj? && HasKey(out.doc, "paths") && Lookup(out.doc, "paths").value.JObj?
        && PathsRewritten(ToV30, Lookup(doc, "paths").value.members, Lookup(out.doc, "paths").value.members)
  {
    var doc1 := SchemasTo30(doc).value;
    SchemasTo30Schemas(doc);
    SchemasTo30Keeps(doc);
    RemoveV31FeaturesKeepsSchemas(doc1, strict);
  }

  /** A parsed discriminator mapping has distinct keys. */
  lemma DiscriminatorUnique(s: Json)
    requires AllUnique(s)
    ensures UniqueKeys(DiscriminatorOf(s))
  {
    if s.JObj? && HasKey(s.members, "discriminator") {
      AllUniqueLookup(s.members, "discriminator");
    }
  }

  /** After 3.1 -> 3.0 on a parsed document, no component schema's discriminator holds `mapping`. */
  lemma ConvertTo30MappingFree(doc: Dict, strict: bool)
    requires AllUnique(JObj(doc)) && ConvertTo30(doc, strict).Ok?
    ensures var out := ConvertTo30(doc, strict).value.doc;
      ComponentSchemasOf(out).Ok? && ComponentSchemasOf(out).value.Some? ==>
        var schemas := ComponentSchemasOf(out).value.value;
        forall i :: 0 <= i < |schemas| ==> !HasKey(DiscriminatorOf(schemas[i].value), "mapping")
  {
    ConvertTo30Schemas(doc, strict);
    if ComponentSchemasOf(doc).value.Some? {
      var schemas := ComponentSchemasOf(doc).value.value;
      var processed := MapSchemas(Process(ToV30), schemas).value;
      AllUniqueLookup(doc, "components");
      AllUniqueLookup(Lookup(doc, "components").value.members, "schemas");
      forall i | 0 <= i < |processed|
        ensures !HasKey(DiscriminatorOf(MapSchemas(PropertyFromMapping, processed).value[i].value), "mapping")
      {
        SchemaMappingFree(schemas[i].value);
      }
    }
  }

  /** One parsed schema, rewritten for 3.0 and then stripped of its mapping, holds no `mapping`. */
  lemma SchemaMappingFree(s: Json)
    requires AllUnique(s)
    ensures !HasKey(DiscriminatorOf(DiscriminatorToProperty(ProcessSchema(ToV30, s))), "mapping")
  {
    DiscriminatorKept(ToV30, s);
    DiscriminatorUnique(s);
    DiscriminatorToPropertyEffect(ProcessSchema(ToV30, s));
  }

  // ---------------------------------------------------------------------------
  // convert
  // ---------------------------------------------------------------------------

  /** A `VersionConversionRequest`: the version families as written, and the strict flag. */
  datatype ConversionRequest = ConversionRequest(sourceVersion: string, targetVersion: string, strictMode: bool)

  /**
    A `ConversionResult` without its timing. An error is a text the converter composes, or
    `Caught` for `"Conversion failed: "` followed by the text of the exception.
  */
  datatype ConversionResult = ConversionResult(
    success: bool, sourceVersion: string, targetVersion: string,
    convertedDocument: Option<Dict>, warnings: seq<string>, errors: seq<ErrorMessage>)

  /** `_validate_source_version`: `.startswith` on a non-string `openapi` raises. */
  function SourceVersionMatches(sourceVersion: string, doc: Dict): Py<bool>
  {
    var version := GetOr(doc, "openapi", JStr(""));
    if sourceVersion == "3.0.x" then (if version.JStr? then Ok(StartsWith(version.s, "3.0.")) else Raises)
    else if sourceVersion == "3.1.x" then (if version.JStr? then Ok(StartsWith(version.s, "3.1.")) else Raises)
    else Ok(false)
  }

  /** `_update_version` */
  function UpdateVersion(doc: Dict, targetVersion: string): Dict
  {
    if targetVersion == "3.0.x" then Put(doc, "openapi", JStr("3.0.0"))
    else if targetVersion == "3.1.x" then Put(doc, "openapi", JStr("3.1.0"))
    else doc
  }

  function Reports(texts: seq<string>): (r: seq<ErrorMessage>)
    ensures |r| == |texts| && forall i :: 0 <= i < |texts| ==> r[i] == Reported(texts[i])
  {
    seq(|texts|, i requires 0 <= i < |texts| => Reported(texts[i]))
  }

  /**
    The rewrite the request's direction selects: `None` when the direction is neither
    3.0.x -> 3.1.x nor 3.1.x -> 3.0.x.
  */
  function ApplyDirection(request: ConversionRequest, doc: Dict): Option<Py<Rewritten>>
  {
    if request.sourceVersion == "3.0.x" && request.targetVersion == "3.1.x" then Some(ConvertTo31(doc))
    else if request.sourceVersion == "3.1.x" && request.targetVersion == "3.0.x" then Some(ConvertTo30(doc, request.strictMode))
    else None
  }

  /**
    What `convert` returns. `validateTarget` stands for `validate_converted_document`,
    which is not part of this model: it yields the error texts for a converted document.
  */
  function Conversion(request: ConversionRequest, validateTarget: (Dict, string) -> seq<string>, document: Dict): ConversionResult
  {
    var src, tgt := request.sourceVersion, request.targetVersion;
    match SourceVersionMatches(src, document)
    case Raises => ConversionResult(false, src, tgt, None, [], [Caught])
    case Ok(matches) =>
      if !matches then ConversionResult(false, src, tgt, None, [], [Reported("Source document version mismatch")])
      else
        match ApplyDirection(request, document)
        case None => ConversionResult(false, src, tgt, None, [], [Reported("Unsupported conversion direction")])
        case Some(Raises) => ConversionResult(false, src, tgt, None, [], [Caught])
        case Some(Ok(rewritten)) =>
          var errors := Reports(rewritten.errors);
          if request.strictMode && errors != [] then ConversionResult(false, src, tgt, None, rewritten.warnings, errors)
          else
            var updated := UpdateVersion(rewritten.doc, tgt);
            var validationErrors := validateTarget(updated, tgt);
            var allErrors := errors + Reports(validationErrors);
            if validationErrors != [] && request.strictMode then
              ConversionResult(false, src, tgt, None, rewritten.warnings, allErrors)
            else ConversionResult(true, src, tgt, Some(updated), rewritten.warnings, allErrors)
  }

  /**
    `convert`: checks the source version, rewrites a copy of the document in the chosen
    direction, collects warnings and errors, stops in strict mode on errors, stamps the
    target version and runs the target validation.
  */
  method Convert(request: ConversionRequest, validateTarget: (Dict, string) -> seq<string>, document: Dict)
    returns (result: ConversionResult)
    ensures result == Conversion(request, validateTarget, document)
  {
    var src, tgt := request.sourceVersion, request.targetVersion;
    var warnings: seq<string> := [];
    var errors: seq<ErrorMessage> := [];
    var matches := SourceVersionMatches(src, document);
    if matches.Raises? {
      return ConversionResult(false, src, tgt, None, [], [Caught]);
    }
    if !matches.value {
      return ConversionResult(false, src, tgt, None, [], [Reported("Source document version mismatch")]);
    }
    var convertedDoc := document;
    var rules := ApplyDirection(request, convertedDoc);
    if rules.None? {
      return ConversionResult(false, src, tgt, None, [], [Reported("Unsupported conversion direction")]);
    }
    if rules.value.Raises? {
      return ConversionResult(false, src, tgt, None, [], [Caught]);
    }
    convertedDoc := rules.value.value.doc;
    warnings := warnings + rules.value.value.warnings;
    errors := errors + Reports(rules.value.value.errors);
    if request.strictMode && errors != [] {
      return ConversionResult(false, src, tgt, None, warnings, errors);
    }
    convertedDoc := UpdateVersion(convertedDoc, tgt);
    var validationErrors := validateTarget(convertedDoc, tgt);
    if validationErrors != [] {
      errors := errors + Reports(validationErrors);
      if request.strictMode {
        return ConversionResult(false, src, tgt, None, warnings, errors);
      }
    } else {
      assert Reports(validationErrors) == [];
      assert errors + [] == errors;
    }
    return ConversionResult(true, src, tgt, Some(convertedDoc), warnings, errors);
  }

  /**
    `convert_version`: guesses the source family from `openapi` (default `"3.0.0"`), runs
    a permissive conversion and returns the converted document, or the input unchanged when
    the conversion fails. `.startswith` on a non-string `openapi` raises to the caller.
  */
  function ConvertVersion(doc: Dict, targetVersion: string, validateTarget: (Dict, string) -> seq<string>): Py<Dict>
  {
    var version := GetOr(doc, "openapi", JStr("3.0.0"));
    if !version.JStr? then Raises
    else
      var src := if StartsWith(version.s, "3.0.") then "3.0.x" else "3.1.x";
      var result := Conversion(ConversionRequest(src, targetVersion, false), validateTarget, doc);
      Ok(if result.success then result.convertedDocument.value else doc)
  }

  // ---------------------------------------------------------------------------
  // Properties of convert
  // ---------------------------------------------------------------------------

  /** 3.0.x -> 3.1.x or 3.1.x -> 3.0.x: the only directions `convert` carries out. */
  predicate SupportedDirection(request: ConversionRequest)
  {
    (request.sourceVersion == "3.0.x" && request.targetVersion == "3.1.x")
    || (request.sourceVersion == "3.1.x" && request.targetVersion == "3.0.x")
  }

  /** 3.0 -> 3.1 adds no warning and no error and keeps every top-level entry but `components` and `paths`. */
  lemma {:induction false} ConvertTo31Effects(doc: Dict)
    requires ConvertTo31(doc).Ok?
    ensures var out := ConvertTo31(doc).value;
      out.warnings == [] && out.errors == []
      && Keys(out.doc) == Keys(doc)
      && forall k :: k != "components" && k != "paths" ==> Lookup(out.doc, k) == Lookup(doc, k)
  {
    var doc1 := ApplyToComponentSchemas(doc, Process(ToV31)).value;
    var doc2 := RewriteParameterSchemas(ToV31, doc1).value;
    ApplyToComponentSchemasEffect(doc, Process(ToV31));
    RewriteParameterSchemasFrame(ToV31, doc1);
    ApplyToComponentSchemasEffect(doc2, MappingFromOneOf);
  }

  /**
    What 3.0 -> 3.1 does to the schemas: each component schema is processed and then given
    its discriminator mapping, and `paths` comes out with every operation-parameter schema
    processed.
  */
  lemma {:induction false} ConvertTo31Schemas(doc: Dict)
    requires ConvertTo31(doc).Ok?
    ensures var out := ConvertTo31(doc).value;
      ComponentSchemasOf(doc).Ok? && ComponentSchemasOf(doc).value.Some? ==>
        var schemas := ComponentSchemasOf(doc).value.value;
        MapSchemas(Process(ToV31), schemas).Ok?
        && var processed := MapSchemas(Process(ToV31), schemas).value;
           MapSchemas(MappingFromOneOf, processed).Ok?
           && ComponentSchemasOf(out.doc) == Ok(Some(MapSchemas(MappingFromOneOf, processed).value))
    ensures var out := ConvertTo31(doc).value;
      HasKey(doc, "paths") ==>
        Lookup(doc, "paths").value.JObj? && HasKey(out.doc, "paths") && Lookup(out.doc, "paths").value.JObj?
        && PathsRewritten(ToV31, Lookup(doc, "paths").value.members, Lookup(out.doc, "paths").value.members)
  {
    var doc1 := ApplyToComponentSchemas(doc, Process(ToV31)).value;
    var doc2 := RewriteParameterSchemas(ToV31, doc1).value;
    var out := ConvertTo31(doc).value;
    if ComponentSchemasOf(doc).Ok? && ComponentSchemasOf(doc).value.Some? {
      ApplyToComponentSchemasEffect(doc, Process(ToV31));
      RewriteParameterSchemasFrame(ToV31, doc1);
      ApplyToComponentSchemasEffect(doc2, MappingFromOneOf);
      assert Lookup(doc2, "components") == Lookup(doc1, "components");
      assert ComponentSchemasOf(doc2) == ComponentSchemasOf(doc1);
    }
    if HasKey(doc, "paths") {
      assert Lookup(doc1, "paths") == Lookup(doc, "paths") by {
        ApplyToComponentSchemasEffect(doc, Process(ToV31));
      }
      assert Lookup(out.doc, "paths") == Lookup(doc2, "paths") by {
        ApplyToComponentSchemasEffect(doc2, MappingFromOneOf);
      }
      RewriteParameterSchemasEffect(ToV31, doc1);
    }
  }

  // ---------------------------------------------------------------------------
  // 3.0 -> 3.1 leaves no `nullable: true` in the schemas it walks
  // ---------------------------------------------------------------------------

  /** Every component schema is free of `nullable: true`. */
  predicate ComponentSchemasNullableFree(doc: Dict)
  {
    ComponentSchemasOf(doc).Ok? && ComponentSchemasOf(doc).value.Some? ==>
      var schemas := ComponentSchemasOf(doc).value.value;
      forall i :: 0 <= i < |schemas| ==> NullableFree(schemas[i].value)
  }

  predicate ParameterSchemaNullableFree(parameter: Json)
  {
    parameter.JObj? && HasKey(parameter.members, "schema") ==> NullableFree(Lookup(parameter.members, "schema").value)
  }

  predicate OperationSchemasNullableFree(operation: Json)
  {
    operation.JObj? && HasKey(operation.members, "parameters") && Lookup(operation.members, "parameters").value.JArr? ==>
      var ps := Lookup(operation.members, "parameters").value.items;
      forall k :: 0 <= k < |ps| ==> ParameterSchemaNullableFree(ps[k])
  }

  /** The schema of every mapping parameter of every operation is free of `nullable: true`. */
  predicate ParameterSchemasNullableFree(doc: Dict)
  {
    HasKey(doc, "paths") && Lookup(doc, "paths").value.JObj? ==>
      var paths := Lookup(doc, "paths").value.members;
      forall i, j :: 0 <= i < |paths| && paths[i].value.JObj? && 0 <= j < |paths[i].value.members| ==>
        OperationSchemasNullableFree(paths[i].value.members[j].value)
  }

  lemma AllUniqueLookup(ms: Dict, k: string)
    requires AllUnique(JObj(ms)) && HasKey(ms, k)
    ensures AllUnique(Lookup(ms, k).value)
  {
    LookupFound(ms, k);
  }

  /** Setting a key the nullable walk ignores keeps a schema free of `nullable: true`. */
  lemma PutKeepsNullableFree(ms: Dict, k: string, v: Json)
    requires NullableFree(JObj(ms)) && k != "nullable" && k !in NestedKeys
    ensures NullableFree(JObj(Put(ms, k, v)))
  {
    LookupPut(ms, k, v, "nullable");
    var out := Put(ms, k, v);
    forall i | 0 <= i < |out|
      ensures NestedNullableFree(out[i])
    {
      PutMember(ms, k, v, i);
      if out[i] == Member(k, v) {
        assert k != "properties";
      }
    }
  }

  /** The discriminator rewrite of 3.0 -> 3.1 keeps a schema free of `nullable: true`. */
  lemma DiscriminatorKeepsNullableFree(schema: Json)
    requires NullableFree(schema) && DiscriminatorToMapping(schema).Ok?
    ensures NullableFree(DiscriminatorToMapping(schema).value)
  {
    var out := DiscriminatorToMapping(schema).value;
    if out != schema {
      var discriminator := Lookup(schema.members, "discriminator").value;
      var mapping := RefMapping(OneOfEntries(schema.members).value).value;
      PutKeepsNullableFree(schema.members, "discriminator", JObj(Put(discriminator.members, "mapping", JObj(mapping))));
    }
  }

  lemma ParameterNullableFree(before: Json, after: Json)
    requires AllUnique(before) && ParameterRewritten(ToV31, before, after)
    ensures ParameterSchemaNullableFree(after)
  {
    if before.JObj? && HasKey(before.members, "schema") {
      var s := Lookup(before.members, "schema").value;
      AllUniqueLookup(before.members, "schema");
      LookupPut(before.members, "schema", ProcessSchema(ToV31, s), "schema");
      NullableGone(s);
    }
  }

  lemma OperationNullableFree(before: Json, after: Json)
    requires AllUnique(before) && OperationRewritten(ToV31, before, after)
    ensures OperationSchemasNullableFree(after)
  {
    if before.JObj? && HasKey(before.members, "parameters") && Lookup(before.members, "parameters").value.JArr? {
      var ps := Lookup(before.members, "parameters").value.items;
      var qs := Lookup(after.members, "parameters").value.items;
      AllUniqueLookup(before.members, "parameters");
      forall k | 0 <= k < |qs|
        ensures ParameterSchemaNullableFree(qs[k])
      {
        ParameterNullableFree(ps[k], qs[k]);
      }
    }
  }

  /** After the 3.0 -> 3.1 parameter walk, no parameter schema has `nullable: true`. */
  lemma PathsNullableFree(before: Dict, after: Dict)
    requires AllUnique(JObj(before)) && PathsRewritten(ToV31, before, after)
    ensures forall i, j :: 0 <= i < |after| && after[i].value.JObj? && 0 <= j < |after[i].value.members| ==>
      OperationSchemasNullableFree(after[i].value.members[j].value)
  {
    forall i, j | 0 <= i < |after| && after[i].value.JObj? && 0 <= j < |after[i].value.members|
      ensures OperationSchemasNullableFree(after[i].value.members[j].value)
    {
      assert AllUnique(before[i].value);
      OperationNullableFree(before[i].value.members[j].value, after[i].value.members[j].value);
    }
  }

  /** After the 3.0 -> 3.1 component walk, no component schema has `nullable: true`. */
  lemma ComponentWalkNullableFree(doc: Dict)
    requires AllUnique(JObj(doc)) && ApplyToComponentSchemas(doc, Process(ToV31)).Ok?
    ensures ComponentSchemasNullableFree(ApplyToComponentSchemas(doc, Process(ToV31)).value)
  {
    ApplyToComponentSchemasEffect(doc, Process(ToV31));
    if ComponentSchemasOf(doc).value.Some? {
      var schemas := ComponentSchemasOf(doc).value.value;
      AllUniqueLookup(doc, "components");
      AllUniqueLookup(Lookup(doc, "components").value.members, "schemas");
      forall i | 0 <= i < |schemas|
        ensures NullableFree(MapSchemas(Process(ToV31), schemas).value[i].value)
      {
        NullableGone(schemas[i].value);
      }
    }
  }

  /** The discriminator walk keeps the component schemas free of `nullable: true`. */
  lemma DiscriminatorWalkNullableFree(doc: Dict)
    requires ComponentSchemasNullableFree(doc) && ApplyToComponentSchemas(doc, MappingFromOneOf).Ok?
    ensures ComponentSchemasNullableFree(ApplyToComponentSchemas(doc, MappingFromOneOf).value)
  {
    ApplyToComponentSchemasEffect(doc, MappingFromOneOf);
    if ComponentSchemasOf(doc).value.Some? {
      var schemas := ComponentSchemasOf(doc).value.value;
      forall i | 0 <= i < |schemas|
        ensures NullableFree(MapSchemas(MappingFromOneOf, schemas).value[i].value)
      {
        DiscriminatorKeepsNullableFree(schemas[i].value);
      }
    }
  }

  /**
    3.0 -> 3.1 on a parsed document: no component schema and no operation-parameter schema
    of the result holds `nullable: true` at any level the walk descends into.
  */
  lemma ConvertTo31NullableFree(doc: Dict)
    requires AllUnique(JObj(doc)) && ConvertTo31(doc).Ok?
    ensures ComponentSchemasNullableFree(ConvertTo31(doc).value.doc)
    ensures ParameterSchemasNullableFree(ConvertTo31(doc).value.doc)
  {
    ConvertTo31ComponentsFree(doc);
    ConvertTo31ParametersFree(doc);
  }

  lemma ConvertTo31ComponentsFree(doc: Dict)
    requires AllUnique(JObj(doc)) && ConvertTo31(doc).Ok?
    ensures ComponentSchemasNullableFree(ConvertTo31(doc).value.doc)
  {
    var doc1 := ApplyToComponentSchemas(doc, Process(ToV31)).value;
    var doc2 := RewriteParameterSchemas(ToV31, doc1).value;
    RewriteParameterSchemasFrame(ToV31, doc1);
    ComponentWalkNullableFree(doc);
    assert Lookup(doc2, "components") == Lookup(doc1, "components");
    assert ComponentSchemasOf(doc2) == ComponentSchemasOf(doc1);
    DiscriminatorWalkNullableFree(doc2);
  }

  lemma ConvertTo31ParametersFree(doc: Dict)
    requires AllUnique(JObj(doc)) && ConvertTo31(doc).Ok?
    ensures ParameterSchemasNullableFree(ConvertTo31(doc).value.doc)
  {
    var doc1 := ApplyToComponentSchemas(doc, Process(ToV31)).value;
    var doc2 := RewriteParameterSchemas(ToV31, doc1).value;
    var doc3 := ApplyToComponentSchemas(doc2, MappingFromOneOf).value;
    ApplyToComponentSchemasEffect(doc, Process(ToV31));
    ApplyToComponentSchemasEffect(doc2, MappingFromOneOf);
    RewriteParameterSchemasEffect(ToV31, doc1);
    assert Lookup(doc3, "paths") == Lookup(doc2, "paths");
    if HasKey(doc1, "paths") {
      assert Lookup(doc1, "paths") == Lookup(doc, "paths");
      AllUniqueLookup(doc, "paths");
      PathsNullableFree(Lookup(doc1, "paths").value.members, Lookup(doc2, "paths").value.members);
    }
  }

  /**
    What `convert` promises: a document exactly on success; success only for a supported
    direction whose source version matched, with `openapi` stamped `"3.0.0"` or `"3.1.0"`;
    a converted family that is also the source family always fails; a version mismatch and
    an unsupported direction each give their one error; in strict mode, success comes with
    no error at all.
  */
  lemma {:induction false} ConversionOutcome(request: ConversionRequest, validateTarget: (Dict, string) -> seq<string>, document: Dict)
    ensures var r := Conversion(request, validateTarget, document);
      r.sourceVersion == request.sourceVersion && r.targetVersion == request.targetVersion
      && (r.success <==> r.convertedDocument.Some?)
      && (r.success ==>
            SupportedDirection(request) && SourceVersionMatches(request.sourceVersion, document) == Ok(true)
            && Lookup(r.convertedDocument.value, "openapi") == Some(JStr(if request.targetVersion == "3.0.x" then "3.0.0" else "3.1.0")))
      && (request.sourceVersion == request.targetVersion ==> !r.success)
      && (SourceVersionMatches(request.sourceVersion, document) == Ok(false) ==>
            r.errors == [Reported("Source document version mismatch")])
      && (SourceVersionMatches(request.sourceVersion, document) == Ok(true) && !SupportedDirection(request) ==>
            r.errors == [Reported("Unsupported conversion direction")])
      && (request.strictMode && r.success ==> r.errors == [])
  {
    var r := Conversion(request, validateTarget, document);
    if r.success {
      var rewritten := ApplyDirection(request, document).value.value;
      LookupPut(rewritten.doc, "openapi", JStr(if request.targetVersion == "3.0.x" then "3.0.0" else "3.1.0"), "openapi");
    }
  }

  /**
    A permissive conversion whose source version matches, in a supported direction, whose
    rewrite does not raise, always succeeds and reports the rewrite's warnings.
  */
  lemma {:induction false} PermissiveSucceeds(request: ConversionRequest, validateTarget: (Dict, string) -> seq<string>, document: Dict)
    requires !request.strictMode && SupportedDirection(request)
    requires SourceVersionMatches(request.sourceVersion, document) == Ok(true)
    requires ApplyDirection(request, document).value.Ok?
    ensures var r := Conversion(request, validateTarget, document);
      r.success && r.warnings == ApplyDirection(request, document).value.value.warnings
  {
  }

  /**
    A strict 3.1 -> 3.0 conversion of a document whose rewritten schemas hold a conditional
    fails with exactly the conditionals error; a permissive one succeeds with the
    conditionals warning last.
  */
  lemma {:induction false} ConditionalsOutcome(validateTarget: (Dict, string) -> seq<string>, document: Dict, strict: bool)
    requires SourceVersionMatches("3.1.x", document) == Ok(true)
    requires ConvertTo30(document, strict).Ok? && ComponentConditionals(ConvertTo30(document, strict).value.doc) == Ok(true)
    ensures var r := Conversion(ConversionRequest("3.1.x", "3.0.x", strict), validateTarget, document);
      (strict ==> !r.success && r.errors == [Reported(ConditionalsError)])
      && (!strict ==> r.success && r.warnings != [] && r.warnings[|r.warnings| - 1] == ConditionalsWarning)
  {
    var out := ConvertTo30(document, strict).value;
    var doc1 := SchemasTo30(document).value;
    assert out == RemoveV31Features(doc1, strict).value;
  }

  /**
    The converter's source check is stricter than the version phase of validation: an
    accepted `openapi` is described by that family, but the bare `"3.0"` and `"3.1"` are
    rejected although validation accepts them.
  */
  lemma {:induction false} SourceCheckWithinFamily(document: Dict, v: OasVersion)
    ensures SourceVersionMatches(v.Tag(), document) == Ok(true) ==>
      var version := GetOr(document, "openapi", JStr(""));
      version.JStr? && v.Describes(version.s)
    ensures Lookup(document, "openapi") == Some(JStr(['3', '.', v.Minor()])) ==>
      v.Describes(['3', '.', v.Minor()]) && SourceVersionMatches(v.Tag(), document) == Ok(false)
  {
  }

  /**
    `convert_version` hands back either the input or a document stamped with the target
    version; it returns the input unchanged when the target is the family the input's
    `openapi` names, and when that `openapi` names neither 3.0 nor 3.1.
  */
  lemma {:induction false} ConvertVersionOutcome(doc: Dict, targetVersion: string, validateTarget: (Dict, string) -> seq<string>)
    ensures var version := GetOr(doc, "openapi", JStr("3.0.0"));
      (ConvertVersion(doc, targetVersion, validateTarget).Raises? <==> !version.JStr?)
      && (ConvertVersion(doc, targetVersion, validateTarget).Ok? ==>
            var out := ConvertVersion(doc, targetVersion, validateTarget).value;
            out == doc || Lookup(out, "openapi") == Some(JStr(if targetVersion == "3.0.x" then "3.0.0" else "3.1.0")))
      && (version.JStr? && StartsWith(version.s, "3.0.") && targetVersion == "3.0.x" ==>
            ConvertVersion(doc, targetVersion, validateTarget) == Ok(doc))
      && (version.JStr? && StartsWith(version.s, "3.1.") && targetVersion == "3.1.x" ==>
            ConvertVersion(doc, targetVersion, validateTarget) == Ok(doc))
      && (version.JStr? && !StartsWith(version.s, "3.0.") && !StartsWith(version.s, "3.1.") ==>
            ConvertVersion(doc, targetVersion, validateTarget) == Ok(doc))
  {
    var version := GetOr(doc, "openapi", JStr("3.0.0"));
    if version.JStr? {
      var src := if StartsWith(version.s, "3.0.") then "3.0.x" else "3.1.x";
      ConversionOutcome(ConversionRequest(src, targetVersion, false), validateTarget, doc);
      if HasKey(doc, "openapi") {
        assert GetOr(doc, "openapi", JStr("")) == version;
      }
    }
  }
}

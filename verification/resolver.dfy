/**
  The reference resolver: collects every component an endpoint depends on by a
  breadth-first walk over `$ref` strings, with a visited set of (category, name)
  pairs, plus the name-based resolution of security schemes.
*/
module Resolver {
  import opened Text
  import opened JsonTree
  import opened Models

  /** A (category, name) slot, the unit of the visited set. */
  type Slot = (ComponentType, string)

  /** Why `resolve_all_refs` gives up: the two KeyErrors, or any other Python exception. */
  datatype ResolveError = PathNotFound(path: string) | MethodNotFound(httpMethod: string, path: string) | Raised

  // ---------------------------------------------------------------------------
  // Scanning a subtree for `$ref` values
  // ---------------------------------------------------------------------------

  /**
    The values `_scan_for_refs` appends, in order: a mapping's own `$ref`, then for each
    member the direct `$ref`s of a `headers` mapping (or a scan of a header without one)
    followed by a scan of the member's value; a list's items in order.
  */
  function RefsIn(j: Json): seq<Json>
    decreases j, 0
  {
    match j
    case JObj(ms) => OwnRef(ms) + MembersRefs(ms)
    case JArr(xs) => ItemsRefs(xs)
    case _ => []
  }

  function OwnRef(ms: seq<Member>): seq<Json>
  {
    if HasKey(ms, "$ref") then [Lookup(ms, "$ref").value] else []
  }

  function MembersRefs(ms: seq<Member>): seq<Json>
    decreases ms
  {
    if ms == [] then []
    else
      var m := ms[|ms| - 1];
      MembersRefs(ms[..|ms| - 1]) + HeaderRefs(m.key, m.value) + RefsIn(m.value)
  }

  function HeaderRefs(key: string, value: Json): seq<Json>
    decreases value
  {
    if key == "headers" && value.JObj? then HeaderDefsRefs(value.members) else []
  }

  function HeaderDefsRefs(hs: seq<Member>): seq<Json>
    decreases hs
  {
    if hs == [] then []
    else
      var h := hs[|hs| - 1].value;
      HeaderDefsRefs(hs[..|hs| - 1]) + HeaderDefRefs(h)
  }

  function HeaderDefRefs(h: Json): seq<Json>
    decreases h, 1
  {
    if h.JObj? && HasKey(h.members, "$ref") then [Lookup(h.members, "$ref").value]
    else if h.JObj? then RefsIn(h)
    else []
  }

  function ItemsRefs(xs: seq<Json>): seq<Json>
    decreases xs
  {
    if xs == [] then [] else ItemsRefs(xs[..|xs| - 1]) + RefsIn(xs[|xs| - 1])
  }

  /** `_scan_for_refs`: appends the `$ref` values found in `obj` to the queue. */
  method ScanForRefs(obj: Json, queue: seq<Json>) returns (q: seq<Json>)
    ensures q == queue + RefsIn(obj)
    decreases obj, 0
  {
    if obj.JObj? {
      q := queue;
      if HasKey(obj.members, "$ref") {
        q := q + [Lookup(obj.members, "$ref").value];
      }
      q := ScanMembers(obj.members, q);
    } else if obj.JArr? {
      q := ScanItems(obj.items, queue);
    } else {
      q := queue;
    }
  }

  /** The `for key, value in obj.items()` loop of `_scan_for_refs`. */
  method ScanMembers(ms: seq<Member>, queue: seq<Json>) returns (q: seq<Json>)
    ensures q == queue + MembersRefs(ms)
    decreases ms
  {
    q := queue;
    var i := 0;
    while i < |ms|
      invariant 0 <= i <= |ms|
      invariant q == queue + MembersRefs(ms[..i])
    {
      var key, value := ms[i].key, ms[i].value;
      MembersRefsNext(ms, i);
      Concat4(queue, MembersRefs(ms[..i]), HeaderRefs(key, value), RefsIn(value));
      if key == "headers" && value.JObj? {
        q := ScanHeaders(value.members, q);
      }
      q := ScanForRefs(value, q);
      i := i + 1;
    }
    assert ms[..|ms|] == ms;
  }

  lemma Concat4<T>(a: seq<T>, b: seq<T>, c: seq<T>, d: seq<T>)
    ensures a + (b + c + d) == a + b + c + d
  { }

  lemma MembersRefsNext(ms: seq<Member>, i: nat)
    requires i < |ms|
    ensures MembersRefs(ms[..i + 1]) == MembersRefs(ms[..i]) + HeaderRefs(ms[i].key, ms[i].value) + RefsIn(ms[i].value)
  {
    assert ms[..i + 1][..i] == ms[..i];
  }

  /** The explicit pass over a `headers` mapping. */
  method ScanHeaders(hs: seq<Member>, queue: seq<Json>) returns (q: seq<Json>)
    ensures q == queue + HeaderDefsRefs(hs)
    decreases hs
  {
    q := queue;
    var j := 0;
    while j < |hs|
      invariant 0 <= j <= |hs|
      invariant q == queue + HeaderDefsRefs(hs[..j])
    {
      var headerDef := hs[j].value;
      assert hs[..j + 1][..j] == hs[..j];
      if headerDef.JObj? && HasKey(headerDef.members, "$ref") {
        q := q + [Lookup(headerDef.members, "$ref").value];
      } else if headerDef.JObj? {
        q := ScanForRefs(headerDef, q);
      }
      j := j + 1;
    }
    assert hs[..|hs|] == hs;
  }

  /** The `for item in obj` loop of `_scan_for_refs`. */
  method ScanItems(xs: seq<Json>, queue: seq<Json>) returns (q: seq<Json>)
    ensures q == queue + ItemsRefs(xs)
    decreases xs
  {
    q := queue;
    var i := 0;
    while i < |xs|
      invariant 0 <= i <= |xs|
      invariant q == queue + ItemsRefs(xs[..i])
    {
      assert xs[..i + 1][..i] == xs[..i];
      q := ScanForRefs(xs[i], q);
      i := i + 1;
    }
    assert xs[..|xs|] == xs;
  }

  /** `_scan_for_refs` finds the direct `$ref` of every header of a `headers` mapping. */
  lemma {:induction false} HeaderRefFound(ms: seq<Member>, i: nat, k: nat)
    requires i < |ms| && ms[i].key == "headers" && ms[i].value.JObj?
    requires k < |ms[i].value.members|
    requires var h := ms[i].value.members[k].value; h.JObj? && HasKey(h.members, "$ref")
    ensures Lookup(ms[i].value.members[k].value.members, "$ref").value in RefsIn(JObj(ms))
  {
    var hs := ms[i].value.members;
    HeaderDefsContains(hs, k);
    MembersContains(ms, i, HeaderRefs(ms[i].key, ms[i].value));
  }

  lemma {:induction false} HeaderDefsContains(hs: seq<Member>, k: nat)
    requires k < |hs|
    ensures forall x :: x in HeaderDefRefs(hs[k].value) ==> x in HeaderDefsRefs(hs)
  {
    if k < |hs| - 1 {
      HeaderDefsContains(hs[..|hs| - 1], k);
    }
  }

  lemma {:induction false} MembersContains(ms: seq<Member>, i: nat, part: seq<Json>)
    requires i < |ms|
    requires part == HeaderRefs(ms[i].key, ms[i].value) || part == RefsIn(ms[i].value)
    ensures forall x :: x in part ==> x in RefsIn(JObj(ms))
  {
    MembersPartContains(ms, i, part);
  }

  lemma {:induction false} MembersPartContains(ms: seq<Member>, i: nat, part: seq<Json>)
    requires i < |ms|
    requires part == HeaderRefs(ms[i].key, ms[i].value) || part == RefsIn(ms[i].value)
    ensures forall x :: x in part ==> x in MembersRefs(ms)
  {
    if i < |ms| - 1 {
      MembersPartContains(ms[..|ms| - 1], i, part);
    }
  }

  /** `_scan_for_refs` finds the `$ref` of every mapping nested anywhere in `obj`. */
  lemma {:induction false} NestedRefFound(obj: Json, inner: Json)
    requires Within(inner, obj) && inner.JObj? && HasKey(inner.members, "$ref")
    ensures Lookup(inner.members, "$ref").value in RefsIn(obj)
    decreases obj
  {
    if obj == inner {
    } else if obj.JObj? {
      var i :| 0 <= i < |obj.members| && Within(inner, obj.members[i].value);
      NestedRefFound(obj.members[i].value, inner);
      MembersContains(obj.members, i, RefsIn(obj.members[i].value));
    } else {
      var i :| 0 <= i < |obj.items| && Within(inner, obj.items[i]);
      NestedRefFound(obj.items[i], inner);
      ItemsContains(obj.items, i);
    }
  }

  lemma {:induction false} ItemsContains(xs: seq<Json>, i: nat)
    requires i < |xs|
    ensures forall x :: x in RefsIn(xs[i]) ==> x in ItemsRefs(xs)
  {
    if i < |xs| - 1 {
      ItemsContains(xs[..|xs| - 1], i);
    }
  }

  /** `inner` is `outer` or a value nested in it through mapping values and list items. */
  predicate Within(inner: Json, outer: Json)
    decreases outer
  {
    inner == outer
    || (outer.JObj? && exists i :: 0 <= i < |outer.members| && Within(inner, outer.members[i].value))
    || (outer.JArr? && exists i :: 0 <= i < |outer.items| && Within(inner, outer.items[i]))
  }

  // ---------------------------------------------------------------------------
  // The resolver
  // ---------------------------------------------------------------------------

  /** `parse_component_ref`: the category and the (possibly slash-containing) name. */
  function ParseComponentRef(refString: string): (r: Option<Slot>)
    ensures r.Some? ==> refString == RefPrefix + r.value.0.Name() + "/" + r.value.1
    ensures r.None? ==> forall t: ComponentType, n: string :: refString != RefPrefix + t.Name() + "/" + n
  {
    match FromRefString(refString)
    case None =>
      assert forall t: ComponentType, n: string :: refString != RefPrefix + t.Name() + "/" + n by {
        forall t: ComponentType, n: string
          ensures refString != RefPrefix + t.Name() + "/" + n
        {
          FromRefStringBuild(t, n);
        }
      }
      None
    case Some(c) =>
      FromRefStringRoundTrip(refString);
      Some((c.componentType, c.componentName))
  }

  /** Strings that are not component refs parse to nothing. */
  lemma ParseComponentRefRejects()
    ensures ParseComponentRef("http://external.com/schema") == None
    ensures ParseComponentRef("#/paths/foo") == None
    ensures ParseComponentRef("") == None
  {
    assert "http://external.com/schema"[..|RefPrefix|][0] != RefPrefix[0];
    assert |"#/paths/foo"| < |RefPrefix|;
  }

  /** A `ReferenceResolver` after construction: the document and its components mapping. */
  datatype ReferenceResolver = ReferenceResolver(doc: Dict, version: string, components: Dict)
  {
    /** `components.get(<category>, {})` */
    function Section(t: ComponentType): Json
    {
      GetOr(components, t.Name(), JObj([]))
    }

    /** `components[<category>][name]`, when that category is a mapping holding the name. */
    function Entry(s: Slot): Option<Json>
    {
      if Section(s.0).JObj? then Lookup(Section(s.0).members, s.1) else None
    }

    /** `get_component`: `.get(name)` on the category; a stored `null` reads as absent. */
    function GetComponent(s: Slot): (r: Py<Option<Json>>)
      ensures r.Ok? <==> Section(s.0).JObj?
      ensures r.Ok? && r.value.Some? ==> Entry(s) == r.value && r.value.value != JNull
      ensures r.Ok? && r.value.None? ==> Entry(s) == None || Entry(s) == Some(JNull)
    {
      match PyGet(Section(s.0), s.1, JNull)
      case Raises => Raises
      case Ok(v) => if v == JNull then Ok(None) else Ok(Some(v))
    }

    /** Every slot that names an existing entry: the slots whose expansion can enqueue refs. */
    function Universe(): set<Slot>
    {
      set t, n | t in AllTypes && Section(t).JObj? && n in KeySet(Section(t).members) :: (t, n)
    }

    lemma EntryInUniverse(s: Slot)
      requires Entry(s).Some?
      ensures s in Universe()
    {
      AllTypesComplete(s.0);
    }

    /**
      The rest of the breadth-first walk from a queue, a visited set and the components
      collected so far: the specification of `resolve_all_refs`' while loop.
    */
    function Drain(queue: seq<Json>, visited: set<Slot>, acc: Catalog): Py<Catalog>
      decreases |Universe() - visited|, |queue|
    {
      if queue == [] then Ok(acc)
      else
        var ref := queue[0];
        if !ref.JStr? then Raises
        else match ParseComponentRef(ref.s)
          case None => Drain(queue[1..], visited, acc)
          case Some(s) =>
            if s in visited then Drain(queue[1..], visited, acc)
            else
              match GetComponent(s)
              case Raises => Raises
              case Ok(None) =>
                VisitShrinks(Universe(), visited, s);
                Drain(queue[1..], visited + {s}, acc)
              case Ok(Some(d)) =>
                EntryInUniverse(s);
                VisitShrinks(Universe(), visited, s);
                Drain(queue[1..] + RefsIn(d), visited + {s}, acc.Add(s.0, s.1, d))
    }

    /**
      The requirements that apply to an operation: its own `security` unless that is
      missing or null, else the document's top-level `security`, else none.
    */
    function EffectiveSecurity(operation: Json): (r: Py<Json>)
      ensures r.Raises? <==> !operation.JObj?
      ensures operation.JObj? && HasKey(operation.members, "security") && Lookup(operation.members, "security").value != JNull
        ==> r == Ok(Lookup(operation.members, "security").value)
      ensures operation.JObj? && !(HasKey(operation.members, "security") && Lookup(operation.members, "security").value != JNull)
        ==> r == Ok(GetOr(doc, "security", JArr([])))
    {
      match PyGet(operation, "security", JNull)
      case Raises => Raises
      case Ok(own) =>
        if own != JNull then Ok(own)
        else if HasKey(doc, "security") then Ok(Lookup(doc, "security").value)
        else Ok(JArr([]))
    }

    /** The scheme names the operation's effective `security` requirements list, in order. */
    function SchemeNames(operation: Json): Py<seq<string>>
    {
      match EffectiveSecurity(operation)
      case Raises => Raises
      case Ok(security) =>
        if !Truthy(security) then Ok([])
        else match PyIter(security)
          case Raises => Raises
          case Ok(requirements) => Ok(RequirementNames(requirements))
    }

    /** One scheme name of `_resolve_security_schemes`: mark it visited, add it if defined. */
    function SchemeStep(name: string, visited: set<Slot>, acc: Catalog): Py<(set<Slot>, Catalog)>
    {
      if (SecuritySchemes, name) in visited then Ok((visited, acc))
      else
        var schemes := Section(SecuritySchemes);
        match PyIn(name, schemes)
        case Raises => Raises
        case Ok(false) => Ok((visited + {(SecuritySchemes, name)}, acc))
        case Ok(true) =>
          match PyIndex(schemes, name)
          case Raises => Raises
          case Ok(d) => Ok((visited + {(SecuritySchemes, name)}, acc.Add(SecuritySchemes, name, d)))
    }

    /** The scheme names in order, each through `SchemeStep`. */
    function SchemeSteps(names: seq<string>, visited: set<Slot>, acc: Catalog): Py<(set<Slot>, Catalog)>
    {
      if names == [] then Ok((visited, acc))
      else
        match SchemeSteps(names[..|names| - 1], visited, acc)
        case Raises => Raises
        case Ok(state) => SchemeStep(names[|names| - 1], state.0, state.1)
    }

    /** `_resolve_security_schemes` on an operation, from a visited set and an accumulator. */
    function ResolveSecuritySchemes(operation: Json, visited: set<Slot>, acc: Catalog): Py<(set<Slot>, Catalog)>
    {
      match SchemeNames(operation)
      case Raises => Raises
      case Ok(names) => SchemeSteps(names, visited, acc)
    }

    /**
      The scheme slots `_resolve_security_schemes` marks visited by name before the walk
      starts: the walk skips them, so their definitions are never scanned for `$ref`s.
    */
    function NamedSchemes(operation: Json): set<Slot>
      requires SchemeNames(operation).Ok?
    {
      set n | n in SchemeNames(operation).value :: (SecuritySchemes, n)
    }

    /** The operation `resolve_all_refs` works on, or why it cannot find it. */
    function FindOperation(path: string, httpMethod: string): Result<(Json, Json), ResolveError>
    {
      var paths := GetOr(doc, "paths", JObj([]));
      match PyIn(path, paths)
      case Raises => Failure(Raised)
      case Ok(false) => Failure(PathNotFound(path))
      case Ok(true) =>
        match PyIndex(paths, path)
        case Raises => Failure(Raised)
        case Ok(pathItem) =>
          var m := Lower(httpMethod);
          match PyIn(m, pathItem)
          case Raises => Failure(Raised)
          case Ok(false) => Failure(MethodNotFound(m, path))
          case Ok(true) =>
            match PyIndex(pathItem, m)
            case Raises => Failure(Raised)
            case Ok(operation) => Success((pathItem, operation))
    }

    /** The refs the walk starts from: those of the path-level parameters, then the operation's. */
    function Seeds(pathItem: Json, operation: Json): seq<Json>
    {
      var pathParams := if pathItem.JObj? && HasKey(pathItem.members, "parameters")
                        then Lookup(pathItem.members, "parameters").value else JArr([]);
      RefsIn(pathParams) + RefsIn(operation)
    }

    /** `resolve_all_refs` as a function of the resolver, the path and the method. */
    function ResolveAll(path: string, httpMethod: string): Result<Catalog, ResolveError>
    {
      match FindOperation(path, httpMethod)
      case Failure(e) => Failure(e)
      case Success(found) =>
        match ResolveSecuritySchemes(found.1, {}, EmptyCatalog)
        case Raises => Failure(Raised)
        case Ok(state) =>
          match Drain(Seeds(found.0, found.1), state.0, state.1)
          case Raises => Failure(Raised)
          case Ok(c) => Success(c)
    }
  }

  /** Visiting a slot shrinks the unvisited part of the universe, or leaves it as it was. */
  lemma VisitShrinks(universe: set<Slot>, visited: set<Slot>, s: Slot)
    requires s !in visited
    ensures s in universe ==> |universe - (visited + {s})| < |universe - visited|
    ensures s !in universe ==> universe - (visited + {s}) == universe - visited
  {
    if s in universe {
      assert universe - visited == (universe - (visited + {s})) + {s};
    }
  }

  /** The names of the mapping requirements among the items, in order. */
  function RequirementNames(requirements: seq<Json>): seq<string>
  {
    if requirements == [] then []
    else
      var last := requirements[|requirements| - 1];
      RequirementNames(requirements[..|requirements| - 1]) + (if last.JObj? then Keys(last.members) else [])
  }

  /** `ReferenceResolver(doc, version)`: `.get` on a non-mapping `components` raises. */
  function NewResolver(doc: Dict, version: string): (r: Py<ReferenceResolver>)
    ensures r.Ok? <==> !HasKey(doc, "components") || Lookup(doc, "components").value.JObj?
    ensures r.Ok? ==> (r.value.doc == doc
      && r.value.components == (if HasKey(doc, "components") then Lookup(doc, "components").value.members else []))
  {
    var components := GetOr(doc, "components", JObj([]));
    if components.JObj? then Ok(ReferenceResolver(doc, version, components.members)) else Raises
  }

  // ---------------------------------------------------------------------------
  // The imperative walk
  // ---------------------------------------------------------------------------

  /** Outcome of `resolve_all_refs`: the filled accumulator, or the error it raised. */
  datatype Resolution = Resolved(components: ResolvedComponents) | Failed(error: ResolveError)

  /**
    `_resolve_security_schemes`: adds to `resolved` each scheme named by the effective
    requirements that `securitySchemes` defines, marking each name visited.
  */
  method ResolveSecuritySchemesInto(r: ReferenceResolver, operation: Json, resolved: ResolvedComponents, visited0: set<Slot>)
    returns (raised: bool, visited: set<Slot>)
    modifies resolved
    ensures match r.ResolveSecuritySchemes(operation, visited0, old(resolved.Model()))
      case Raises => raised
      case Ok(state) => !raised && visited == state.0 && resolved.Model() == state.1
  {
    ghost var acc0 := resolved.Model();
    raised, visited := false, visited0;
    if !operation.JObj? {
      return true, visited;
    }
    var security := GetOr(operation.members, "security", JNull);
    if security == JNull {
      security := GetOr(r.doc, "security", JArr([]));
    }
    if !Truthy(security) {
      return false, visited;
    }
    if !(security.JArr? || security.JObj? || security.JStr?) {
      return true, visited;
    }
    var requirements := PyIter(security).value;
    raised, visited := AddRequirements(r, requirements, resolved, visited0);
  }

  /** The outer loop of `_resolve_security_schemes`: the names of each requirement in turn. */
  method AddRequirements(r: ReferenceResolver, requirements: seq<Json>, resolved: ResolvedComponents, visited0: set<Slot>)
    returns (raised: bool, visited: set<Slot>)
    modifies resolved
    ensures match r.SchemeSteps(RequirementNames(requirements), visited0, old(resolved.Model()))
      case Raises => raised
      case Ok(state) => !raised && visited == state.0 && resolved.Model() == state.1
  {
    ghost var acc0 := resolved.Model();
    raised, visited := false, visited0;
    var i := 0;
    while i < |requirements|
      invariant 0 <= i <= |requirements|
      invariant r.SchemeSteps(RequirementNames(requirements[..i]), visited0, acc0) == Ok((visited, resolved.Model()))
    {
      ghost var done := RequirementNames(requirements[..i]);
      var names := if requirements[i].JObj? then Keys(requirements[i].members) else [];
      RequirementNamesNext(requirements, i);
      raised, visited := AddNamedSchemes(r, names, resolved, visited, done, visited0, acc0);
      if raised {
        RequirementsRaiseOn(r, requirements, i + 1, done + names, visited0, acc0);
        return;
      }
      i := i + 1;
    }
    assert requirements[..|requirements|] == requirements;
  }

  lemma RequirementNamesNext(requirements: seq<Json>, i: nat)
    requires i < |requirements|
    ensures RequirementNames(requirements[..i + 1])
         == RequirementNames(requirements[..i])
            + (if requirements[i].JObj? then Keys(requirements[i].members) else [])
  {
    assert requirements[..i + 1][..i] == requirements[..i];
  }

  /**
    The inner loop of `_resolve_security_schemes` over the names of one requirement,
    continuing the resolution of the names in `done`.
  */
  method AddNamedSchemes(r: ReferenceResolver, names: seq<string>, resolved: ResolvedComponents, visited0: set<Slot>,
                         ghost done: seq<string>, ghost start: set<Slot>, ghost acc0: Catalog)
    returns (raised: bool, visited: set<Slot>)
    requires r.SchemeSteps(done, start, acc0) == Ok((visited0, resolved.Model()))
    modifies resolved
    ensures !raised ==> r.SchemeSteps(done + names, start, acc0) == Ok((visited, resolved.Model()))
    ensures raised ==> r.SchemeSteps(done + names, start, acc0) == Raises
  {
    raised, visited := false, visited0;
    var j := 0;
    assert done + names[..0] == done;
    while j < |names|
      invariant 0 <= j <= |names|
      invariant r.SchemeSteps(done + names[..j], start, acc0) == Ok((visited, resolved.Model()))
    {
      SchemeStepsNext(r, done, names, j, start, acc0, visited, resolved.Model());
      raised, visited := SchemeStepInto(r, names[j], resolved, visited);
      if raised {
        SchemeStepsRaisesOn(r, done + names[..j + 1], names[j + 1..], start, acc0);
        PrefixRest(done, names, j + 1);
        return;
      }
      j := j + 1;
    }
    assert names[..|names|] == names;
  }

  lemma PrefixRest<T>(a: seq<T>, b: seq<T>, k: nat)
    requires k <= |b|
    ensures a + b[..k] + b[k..] == a + b
  {
    assert b[..k] + b[k..] == b;
  }

  /** One scheme name of `_resolve_security_schemes`' inner loop. */
  method SchemeStepInto(r: ReferenceResolver, name: string, resolved: ResolvedComponents, visited0: set<Slot>)
    returns (raised: bool, visited: set<Slot>)
    modifies resolved
    ensures raised <==> r.SchemeStep(name, visited0, old(resolved.Model())).Raises?
    ensures !raised ==> r.SchemeStep(name, visited0, old(resolved.Model())) == Ok((visited, resolved.Model()))
  {
    raised, visited := false, visited0;
    if (SecuritySchemes, name) !in visited {
      visited := visited + {(SecuritySchemes, name)};
      var schemes := r.Section(SecuritySchemes);
      var present := PyIn(name, schemes);
      if present.Raises? {
        return true, visited;
      }
      if present.value {
        var definition := PyIndex(schemes, name);
        if definition.Raises? {
          return true, visited;
        }
        resolved.Add(SecuritySchemes, name, definition.value);
      }
    }
  }

  /** Extending the names by one applies one more `SchemeStep`. */
  lemma SchemeStepsNext(r: ReferenceResolver, done: seq<string>, names: seq<string>, j: nat, start: set<Slot>, acc0: Catalog,
                        visited: set<Slot>, acc: Catalog)
    requires j < |names| && r.SchemeSteps(done + names[..j], start, acc0) == Ok((visited, acc))
    ensures r.SchemeSteps(done + names[..j + 1], start, acc0) == r.SchemeStep(names[j], visited, acc)
  {
    assert (done + names[..j + 1])[..|done + names[..j]|] == done + names[..j];
    assert (done + names[..j + 1])[|done + names[..j]|] == names[j];
  }

  /** Once a prefix of the names raises, so does the whole list. */
  lemma {:induction false} SchemeStepsRaisesOn(r: ReferenceResolver, names: seq<string>, more: seq<string>, visited: set<Slot>, acc: Catalog)
    requires r.SchemeSteps(names, visited, acc) == Raises
    ensures r.SchemeSteps(names + more, visited, acc) == Raises
    decreases |more|
  {
    if more != [] {
      var init := more[..|more| - 1];
      SchemeStepsRaisesOn(r, names, init, visited, acc);
      assert (names + more)[..|names + more| - 1] == names + init;
    } else {
      assert names + more == names;
    }
  }

  /** Raising on the names of the first `i` requirements raises on all of them. */
  lemma RequirementsRaiseOn(r: ReferenceResolver, requirements: seq<Json>, i: nat, done: seq<string>, visited: set<Slot>, acc: Catalog)
    requires i <= |requirements| && done == RequirementNames(requirements[..i])
    requires r.SchemeSteps(done, visited, acc) == Raises
    ensures r.SchemeSteps(RequirementNames(requirements), visited, acc) == Raises
  {
    RequirementNamesSplit(requirements, i);
    SchemeStepsRaisesOn(r, done, RequirementNamesFrom(requirements, i), visited, acc);
  }

  /** The names of the requirements from index `i` on. */
  function RequirementNamesFrom(requirements: seq<Json>, i: nat): seq<string>
    requires i <= |requirements|
    decreases |requirements| - i
  {
    if i == |requirements| then []
    else (if requirements[i].JObj? then Keys(requirements[i].members) else []) + RequirementNamesFrom(requirements, i + 1)
  }

  lemma {:induction false} RequirementNamesSplit(requirements: seq<Json>, i: nat)
    requires i <= |requirements|
    ensures RequirementNames(requirements) == RequirementNames(requirements[..i]) + RequirementNamesFrom(requirements, i)
    decreases |requirements| - i
  {
    if i < |requirements| {
      RequirementNamesSplit(requirements, i + 1);
      assert requirements[..i + 1][..i] == requirements[..i];
    } else {
      assert requirements[..i] == requirements;
    }
  }

  /**
    `resolve_all_refs`: locates the operation, scans the path-level parameters and the
    operation, resolves the security schemes, then drains the queue breadth-first.
  */
  method ResolveAllRefs(r: ReferenceResolver, path: string, httpMethod: string) returns (outcome: Resolution)
    ensures match r.ResolveAll(path, httpMethod)
      case Failure(e) => outcome == Failed(e)
      case Success(c) => outcome.Resolved? && fresh(outcome.components) && outcome.components.Model() == c
  {
    var found := r.FindOperation(path, httpMethod);
    if found.Failure? {
      return Failed(found.error);
    }
    var pathItem, operation := found.value.0, found.value.1;
    var resolved := new ResolvedComponents();
    var pathParams := if pathItem.JObj? && HasKey(pathItem.members, "parameters")
                      then Lookup(pathItem.members, "parameters").value else JArr([]);
    var queue := ScanForRefs(pathParams, []);
    queue := ScanForRefs(operation, queue);
    assert queue == r.Seeds(pathItem, operation);
    var raised, visited := ResolveSecuritySchemesInto(r, operation, resolved, {});
    if raised {
      return Failed(Raised);
    }
    raised := DrainInto(r, queue, visited, resolved);
    if raised {
      return Failed(Raised);
    }
    return Resolved(resolved);
  }

  /** The breadth-first `while queue` loop of `resolve_all_refs`. */
  method DrainInto(r: ReferenceResolver, queue0: seq<Json>, visited0: set<Slot>, resolved: ResolvedComponents)
    returns (raised: bool)
    modifies resolved
    ensures match r.Drain(queue0, visited0, old(resolved.Model()))
      case Raises => raised
      case Ok(c) => !raised && resolved.Model() == c
  {
    var queue, visited := queue0, visited0;
    ghost var acc0 := resolved.Model();
    while queue != []
      invariant r.Drain(queue, visited, resolved.Model()) == r.Drain(queue0, visited0, acc0)
      decreases |r.Universe() - visited|, |queue|
    {
      var ref := queue[0];
      queue := queue[1..];
      if !ref.JStr? {
        return true;
      }
      var parsed := ParseComponentRef(ref.s);
      if parsed.None? {
        continue;
      }
      var slot := parsed.value;
      if slot in visited {
        continue;
      }
      VisitShrinks(r.Universe(), visited, slot);
      visited := visited + {slot};
      var definition := r.GetComponent(slot);
      if definition.Raises? {
        return true;
      }
      if definition.value.Some? {
        r.EntryInUniverse(slot);
        resolved.Add(slot.0, slot.1, definition.value.value);
        queue := ScanForRefs(definition.value.value, queue);
      }
    }
    return false;
  }

  /** `resolve_endpoint_refs`: the names of the resolved schemas, each defined in the document. */
  method ResolveEndpointRefs(r: ReferenceResolver, path: string, httpMethod: string) returns (names: Result<seq<string>, ResolveError>)
    ensures r.ResolveAll(path, httpMethod).Failure? ==> names == Failure(r.ResolveAll(path, httpMethod).error)
    ensures r.ResolveAll(path, httpMethod).Success? ==>
      names == Success(Keys(r.ResolveAll(path, httpMethod).value.schemas))
    ensures names.Success? ==> forall n :: n in names.value ==> r.Entry((Schemas, n)).Some?
  {
    var outcome := ResolveAllRefs(r, path, httpMethod);
    match outcome {
      case Failed(e) =>
        names := Failure(e);
      case Resolved(components) =>
        names := Success(Keys(components.schemas));
        ResolveAllSound(r, path, httpMethod);
        forall n | n in names.value
          ensures r.Entry((Schemas, n)).Some?
        {
          var i :| 0 <= i < |components.schemas| && components.schemas[i].key == n;
          LookupHasKey(components.schemas, i);
          assert HasKey(components.Model().Section(Schemas), n);
        }
    }
  }

  // ---------------------------------------------------------------------------
  // Soundness and closure of the walk
  // ---------------------------------------------------------------------------

  /** The slot names an entry that exists and is not null: what `get_component` hands back. */
  ghost predicate Live(r: ReferenceResolver, s: Slot)
  {
    r.Entry(s).Some? && r.Entry(s).value != JNull
  }

  /** Every collected entry is the document's entry for its slot. */
  ghost predicate Sound(r: ReferenceResolver, c: Catalog)
  {
    forall t: ComponentType, n: string :: HasKey(c.Section(t), n) ==> Lookup(c.Section(t), n) == r.Entry((t, n))
  }

  /** The ref is a string and, when it names an existing entry, `c` holds that entry. */
  ghost predicate Covered(r: ReferenceResolver, c: Catalog, x: Json)
  {
    x.JStr? &&
    match ParseComponentRef(x.s)
    case None => true
    case Some(s) => Live(r, s) ==> Lookup(c.Section(s.0), s.1) == r.Entry(s)
  }

  /** Every ref inside a collected entry is covered, except inside the entries collected by name. */
  ghost predicate Closed(r: ReferenceResolver, named: set<Slot>, c: Catalog)
  {
    forall t: ComponentType, n: string :: HasKey(c.Section(t), n) && (t, n) !in named ==>
      forall x :: x in RefsIn(Lookup(c.Section(t), n).value) ==> Covered(r, c, x)
  }

  /** Closure up to the refs still waiting in the queue. */
  ghost predicate Pending(r: ReferenceResolver, named: set<Slot>, c: Catalog, queue: seq<Json>)
  {
    forall t: ComponentType, n: string :: HasKey(c.Section(t), n) && (t, n) !in named ==>
      forall x :: x in RefsIn(Lookup(c.Section(t), n).value) ==> Covered(r, c, x) || x in queue
  }

  ghost predicate KeysVisited(c: Catalog, visited: set<Slot>)
  {
    forall t: ComponentType, n: string :: HasKey(c.Section(t), n) ==> (t, n) in visited
  }

  /** A visited slot that names an existing entry has been collected. */
  ghost predicate VisitedCollected(r: ReferenceResolver, c: Catalog, visited: set<Slot>)
  {
    forall s :: s in visited && Live(r, s) ==> Lookup(c.Section(s.0), s.1) == r.Entry(s)
  }

  /** `c` keeps every entry of `a`. */
  ghost predicate Grows(a: Catalog, c: Catalog)
  {
    forall t: ComponentType, n: string :: HasKey(a.Section(t), n) ==> Lookup(c.Section(t), n) == Lookup(a.Section(t), n)
  }

  /** What the walk keeps true between two steps; `named` are the slots visited before it began. */
  ghost predicate WalkInv(r: ReferenceResolver, named: set<Slot>, queue: seq<Json>, visited: set<Slot>, acc: Catalog)
  {
    named <= visited && Sound(r, acc) && KeysVisited(acc, visited) && VisitedCollected(r, acc, visited)
    && Pending(r, named, acc, queue)
  }

  lemma CoveredGrows(r: ReferenceResolver, a: Catalog, c: Catalog, x: Json)
    requires Grows(a, c) && Covered(r, a, x)
    ensures Covered(r, c, x)
  {
    match ParseComponentRef(x.s)
    case None =>
    case Some(s) =>
      if Live(r, s) {
        assert HasKey(a.Section(s.0), s.1);
      }
  }

  lemma GrowsTrans(a: Catalog, b: Catalog, c: Catalog)
    requires Grows(a, b) && Grows(b, c)
    ensures Grows(a, c)
  {
    forall t: ComponentType, n: string | HasKey(a.Section(t), n)
      ensures Lookup(c.Section(t), n) == Lookup(a.Section(t), n)
    {
      assert HasKey(b.Section(t), n);
    }
  }

  /** Adding an unvisited slot keeps every existing entry. */
  lemma AddGrows(acc: Catalog, visited: set<Slot>, s: Slot, d: Json)
    requires KeysVisited(acc, visited) && s !in visited
    ensures Grows(acc, acc.Add(s.0, s.1, d))
  {
    forall t: ComponentType, n: string | HasKey(acc.Section(t), n)
      ensures Lookup(acc.Add(s.0, s.1, d).Section(t), n) == Lookup(acc.Section(t), n)
    {
      CatalogAdd(acc, s.0, s.1, d, t, n);
    }
  }

  /** Collecting the document's entry for an unvisited slot keeps the walk invariant. */
  lemma {:induction false} AddKeepsInv(r: ReferenceResolver, named: set<Slot>, queue: seq<Json>, visited: set<Slot>, acc: Catalog, s: Slot, d: Json, more: seq<Json>)
    requires WalkInv(r, named, queue, visited, acc) && s !in visited && r.Entry(s) == Some(d)
    requires forall x :: x in RefsIn(d) ==> x in more
    ensures WalkInv(r, named, queue + more, visited + {s}, acc.Add(s.0, s.1, d))
    ensures Grows(acc, acc.Add(s.0, s.1, d))
  {
    var acc' := acc.Add(s.0, s.1, d);
    AddGrows(acc, visited, s, d);
    forall t: ComponentType, n: string | HasKey(acc'.Section(t), n)
      ensures Lookup(acc'.Section(t), n) == r.Entry((t, n)) && (t, n) in visited + {s}
    {
      CatalogAdd(acc, s.0, s.1, d, t, n);
    }
    forall p | p in visited + {s} && Live(r, p)
      ensures Lookup(acc'.Section(p.0), p.1) == r.Entry(p)
    {
      CatalogAdd(acc, s.0, s.1, d, p.0, p.1);
    }
    forall t: ComponentType, n: string, x | HasKey(acc'.Section(t), n) && (t, n) !in named && x in RefsIn(Lookup(acc'.Section(t), n).value)
      ensures Covered(r, acc', x) || x in queue + more
    {
      CatalogAdd(acc, s.0, s.1, d, t, n);
      if (t, n) != s {
        assert HasKey(acc.Section(t), n);
        if Covered(r, acc, x) {
          CoveredGrows(r, acc, acc', x);
        }
      }
    }
  }

  /**
    A successful drain from a state satisfying the walk invariant collects only document
    entries, leaves every collected entry closed except those in `named` (visited before
    the walk began), keeps what was collected, and covers every ref that was waiting in the queue.
  */
  lemma {:induction false} DrainClosed(r: ReferenceResolver, named: set<Slot>, queue: seq<Json>, visited: set<Slot>, acc: Catalog)
    requires WalkInv(r, named, queue, visited, acc)
    requires r.Drain(queue, visited, acc).Ok?
    ensures var c := r.Drain(queue, visited, acc).value;
      Sound(r, c) && Closed(r, named, c) && Grows(acc, c) && forall x :: x in queue ==> Covered(r, c, x)
    decreases |r.Universe() - visited|, |queue|
  {
    if queue != [] {
      var c := r.Drain(queue, visited, acc).value;
      var queue', visited', acc' := DrainStep(r, named, queue, visited, acc);
      DrainClosed(r, named, queue', visited', acc');
      GrowsTrans(acc, acc', c);
      DrainCoversQueue(r, queue, acc', c);
    }
  }

  /** One step of the walk keeps its invariant and covers the ref it pops. */
  lemma DrainStep(r: ReferenceResolver, named: set<Slot>, queue: seq<Json>, visited: set<Slot>, acc: Catalog)
    returns (queue': seq<Json>, visited': set<Slot>, acc': Catalog)
    requires WalkInv(r, named, queue, visited, acc) && queue != []
    requires r.Drain(queue, visited, acc).Ok?
    ensures r.Drain(queue', visited', acc') == r.Drain(queue, visited, acc)
    ensures WalkInv(r, named, queue', visited', acc') && Grows(acc, acc')
    ensures Covered(r, acc', queue[0]) && queue[1..] <= queue'
    ensures |r.Universe() - visited'| < |r.Universe() - visited|
         || (r.Universe() - visited' == r.Universe() - visited && |queue'| < |queue|)
  {
    var x := queue[0];
    var parsed := ParseComponentRef(x.s);
    if parsed.Some? && parsed.value !in visited && r.GetComponent(parsed.value).value.Some? {
      queue', visited', acc' := DrainStepFound(r, named, queue, visited, acc, parsed.value);
    } else {
      visited' := DrainStepSkip(r, named, queue, visited, acc);
      queue', acc' := queue[1..], acc;
    }
  }

  /** The step that pops a ref without collecting anything. */
  lemma DrainStepSkip(r: ReferenceResolver, named: set<Slot>, queue: seq<Json>, visited: set<Slot>, acc: Catalog)
    returns (visited': set<Slot>)
    requires WalkInv(r, named, queue, visited, acc) && queue != []
    requires r.Drain(queue, visited, acc).Ok?
    requires var parsed := ParseComponentRef(queue[0].s);
      !(parsed.Some? && parsed.value !in visited && r.GetComponent(parsed.value).value.Some?)
    ensures r.Drain(queue[1..], visited', acc) == r.Drain(queue, visited, acc)
    ensures WalkInv(r, named, queue[1..], visited', acc)
    ensures Covered(r, acc, queue[0])
    ensures r.Universe() - visited' == r.Universe() - visited || |r.Universe() - visited'| < |r.Universe() - visited|
  {
    var parsed := ParseComponentRef(queue[0].s);
    if parsed.Some? && parsed.value !in visited {
      VisitShrinks(r.Universe(), visited, parsed.value);
      visited' := visited + {parsed.value};
    } else {
      visited' := visited;
    }
    PopKeepsInv(r, named, queue, visited, acc);
  }

  /** The step that collects a found entry and enqueues its refs. */
  lemma DrainStepFound(r: ReferenceResolver, named: set<Slot>, queue: seq<Json>, visited: set<Slot>, acc: Catalog, s: Slot)
    returns (queue': seq<Json>, visited': set<Slot>, acc': Catalog)
    requires WalkInv(r, named, queue, visited, acc) && queue != [] && queue[0].JStr?
    requires ParseComponentRef(queue[0].s) == Some(s) && s !in visited
    requires r.GetComponent(s).Ok? && r.GetComponent(s).value.Some?
    ensures var d := r.GetComponent(s).value.value;
      queue' == queue[1..] + RefsIn(d) && visited' == visited + {s} && acc' == acc.Add(s.0, s.1, d)
    ensures WalkInv(r, named, queue', visited', acc') && Grows(acc, acc')
    ensures Covered(r, acc', queue[0])
    ensures |r.Universe() - visited'| < |r.Universe() - visited|
  {
    var d := r.GetComponent(s).value.value;
    r.EntryInUniverse(s);
    VisitShrinks(r.Universe(), visited, s);
    acc' := acc.Add(s.0, s.1, d);
    AddKeepsInv(r, named, queue, visited, acc, s, d, RefsIn(d));
    CatalogAdd(acc, s.0, s.1, d, s.0, s.1);
    TailAppend(queue, RefsIn(d));
    PopKeepsInv(r, named, queue + RefsIn(d), visited + {s}, acc');
    queue', visited' := queue[1..] + RefsIn(d), visited + {s};
  }

  lemma TailAppend<T>(a: seq<T>, b: seq<T>)
    requires a != []
    ensures (a + b)[0] == a[0] && (a + b)[1..] == a[1..] + b
  { }

  /** The head of the queue is covered by `acc`, so the invariant holds without it. */
  lemma PopKeepsInv(r: ReferenceResolver, named: set<Slot>, queue: seq<Json>, visited: set<Slot>, acc: Catalog)
    requires WalkInv(r, named, queue, visited, acc) && queue != []
    requires Covered(r, acc, queue[0])
    ensures WalkInv(r, named, queue[1..], visited, acc)
  {
    forall t: ComponentType, n: string, y | HasKey(acc.Section(t), n) && (t, n) !in named && y in RefsIn(Lookup(acc.Section(t), n).value)
      ensures Covered(r, acc, y) || y in queue[1..]
    {
      assert Covered(r, acc, y) || y in queue;
      if y in queue && y != queue[0] {
        var i :| 0 <= i < |queue| && queue[i] == y;
        assert queue[1..][i - 1] == y;
      }
    }
  }

  /** After a covered head and a covered tail, the whole queue is covered. */
  lemma DrainCoversQueue(r: ReferenceResolver, queue: seq<Json>, acc: Catalog, c: Catalog)
    requires queue != [] && Covered(r, acc, queue[0]) && Grows(acc, c)
    requires forall y :: y in queue[1..] ==> Covered(r, c, y)
    ensures forall y :: y in queue ==> Covered(r, c, y)
  {
    CoveredGrows(r, acc, c, queue[0]);
    forall y | y in queue
      ensures Covered(r, c, y)
    {
      if y != queue[0] {
        var i :| 0 <= i < |queue| && queue[i] == y;
        assert queue[1..][i - 1] == y;
      }
    }
  }

  /** Only the `securitySchemes` category holds anything. */
  ghost predicate OnlySchemes(c: Catalog)
  {
    forall t: ComponentType :: t != SecuritySchemes ==> c.Section(t) == []
  }

  /**
    Security resolution from scratch visits exactly the named schemes and collects, for each
    name, the document's definition if `securitySchemes` has one, and nothing else.
  */
  lemma {:induction false} SchemeStepsExact(r: ReferenceResolver, names: seq<string>)
    requires r.SchemeSteps(names, {}, EmptyCatalog).Ok?
    ensures var st := r.SchemeSteps(names, {}, EmptyCatalog).value;
      OnlySchemes(st.1)
      && st.0 == (set n | n in names :: (SecuritySchemes, n))
      && forall n :: Lookup(st.1.securitySchemes, n) == if n in names then r.Entry((SecuritySchemes, n)) else None
  {
    if names == [] {
      return;
    }
    var init := names[..|names| - 1];
    var x := names[|names| - 1];
    LastIn(names, x);
    SchemeStepsExact(r, init);
    var st := r.SchemeSteps(init, {}, EmptyCatalog).value;
    SchemeStepEffect(r, x, st.0, st.1);
    var st' := r.SchemeSteps(names, {}, EmptyCatalog).value;
    forall n
      ensures n in names <==> n in init || n == x
    {
      LastIn(names, n);
    }
  }

  /**
    One scheme name: an unvisited name is marked visited and, when the document defines it,
    collected with its definition; nothing else changes.
  */
  lemma SchemeStepEffect(r: ReferenceResolver, x: string, visited: set<Slot>, acc: Catalog)
    requires OnlySchemes(acc) && r.SchemeStep(x, visited, acc).Ok?
    requires (SecuritySchemes, x) !in visited ==> Lookup(acc.securitySchemes, x) == None
    ensures var st' := r.SchemeStep(x, visited, acc).value;
      OnlySchemes(st'.1)
      && st'.0 == visited + {(SecuritySchemes, x)}
      && Lookup(st'.1.securitySchemes, x)
         == (if (SecuritySchemes, x) in visited then Lookup(acc.securitySchemes, x) else r.Entry((SecuritySchemes, x)))
      && forall n :: n != x ==> Lookup(st'.1.securitySchemes, n) == Lookup(acc.securitySchemes, n)
  {
    var schemes := r.Section(SecuritySchemes);
    if (SecuritySchemes, x) !in visited && PyIn(x, schemes) == Ok(true) {
      var d := PyIndex(schemes, x).value;
      forall n
        ensures Lookup(acc.Add(SecuritySchemes, x, d).securitySchemes, n)
             == if n == x then Some(d) else Lookup(acc.securitySchemes, n)
      {
        CatalogAdd(acc, SecuritySchemes, x, d, SecuritySchemes, n);
      }
    }
  }

  /**
    What security resolution from scratch leaves satisfies the walk invariant for any queue,
    with the slots it visited as the ones exempt from closure.
  */
  lemma SchemeStepsInv(r: ReferenceResolver, names: seq<string>, queue: seq<Json>)
    requires r.SchemeSteps(names, {}, EmptyCatalog).Ok?
    ensures var st := r.SchemeSteps(names, {}, EmptyCatalog).value;
      WalkInv(r, st.0, queue, st.0, st.1)
  {
    SchemeStepsExact(r, names);
    var st := r.SchemeSteps(names, {}, EmptyCatalog).value;
    forall t: ComponentType, n: string | HasKey(st.1.Section(t), n)
      ensures Lookup(st.1.Section(t), n) == r.Entry((t, n)) && (t, n) in st.0
    {
    }
  }

  /** `security: []` on the operation overrides the document's requirements: no scheme is added. */
  lemma EmptySecurityNoSchemes(r: ReferenceResolver, ms: Dict, visited: set<Slot>, acc: Catalog)
    requires Lookup(ms, "security") == Some(JArr([]))
    ensures r.ResolveSecuritySchemes(JObj(ms), visited, acc) == Ok((visited, acc))
  {
  }

  /**
    The result of `resolve_all_refs` holds only the document's own entries, every ref the
    path-level parameters and the operation contain is covered, and every ref inside a
    collected entry is covered too, except inside the schemes collected by name.
  */
  lemma ResolveAllSound(r: ReferenceResolver, path: string, httpMethod: string)
    requires r.ResolveAll(path, httpMethod).Success?
    ensures var c := r.ResolveAll(path, httpMethod).value;
      var found := r.FindOperation(path, httpMethod).value;
      r.SchemeNames(found.1).Ok?
      && Sound(r, c) && Closed(r, r.NamedSchemes(found.1), c)
      && forall x :: x in r.Seeds(found.0, found.1) ==> Covered(r, c, x)
  {
    var found := r.FindOperation(path, httpMethod).value;
    var names := r.SchemeNames(found.1).value;
    var seeds := r.Seeds(found.0, found.1);
    SchemeStepsInv(r, names, seeds);
    SchemeStepsExact(r, names);
    var st := r.SchemeSteps(names, {}, EmptyCatalog).value;
    DrainClosed(r, st.0, seeds, st.0, st.1);
  }

  /** Some ref among `xs` names the slot. */
  ghost predicate NamesSlot(xs: seq<Json>, s: Slot)
  {
    exists x :: x in xs && x.JStr? && ParseComponentRef(x.s) == Some(s)
  }

  /**
    The slot is reachable from the seeds within `k` steps of `$ref` chains through existing
    entries; a chain does not continue through a slot of `named`, whose definition the walk
    never scans.
  */
  ghost predicate Reaches(r: ReferenceResolver, named: set<Slot>, seeds: seq<Json>, s: Slot, k: nat)
    decreases k
  {
    NamesSlot(seeds, s)
    || (k > 0 && exists p: Slot :: Reaches(r, named, seeds, p, k - 1) && p !in named && Live(r, p)
                                   && NamesSlot(RefsIn(r.Entry(p).value), s))
  }

  /**
    Transitive completeness: every existing entry reachable by a `$ref` chain from the
    path-level parameters and the operation is in the result, with the document's definition;
    chains through a security scheme collected by name are not followed, since the source
    never scans such a scheme.
  */
  lemma {:induction false} ReachableResolved(r: ReferenceResolver, path: string, httpMethod: string, s: Slot, k: nat)
    requires r.ResolveAll(path, httpMethod).Success?
    requires var found := r.FindOperation(path, httpMethod).value;
      r.SchemeNames(found.1).Ok? && Reaches(r, r.NamedSchemes(found.1), r.Seeds(found.0, found.1), s, k)
    requires Live(r, s)
    ensures Lookup(r.ResolveAll(path, httpMethod).value.Section(s.0), s.1) == r.Entry(s)
    decreases k
  {
    var c := r.ResolveAll(path, httpMethod).value;
    var found := r.FindOperation(path, httpMethod).value;
    var seeds := r.Seeds(found.0, found.1);
    var named := r.NamedSchemes(found.1);
    ResolveAllSound(r, path, httpMethod);
    if NamesSlot(seeds, s) {
      var x :| x in seeds && x.JStr? && ParseComponentRef(x.s) == Some(s);
      assert Covered(r, c, x);
    } else {
      var p: Slot :| Reaches(r, named, seeds, p, k - 1) && p !in named && Live(r, p)
                     && NamesSlot(RefsIn(r.Entry(p).value), s);
      ReachableResolved(r, path, httpMethod, p, k - 1);
      assert HasKey(c.Section(p.0), p.1);
      var x :| x in RefsIn(r.Entry(p).value) && x.JStr? && ParseComponentRef(x.s) == Some(s);
      assert Covered(r, c, x);
    }
  }

  /** The walk keeps every category free of duplicate names. */
  lemma {:induction false} DrainWf(r: ReferenceResolver, queue: seq<Json>, visited: set<Slot>, acc: Catalog)
    requires acc.Wf() && r.Drain(queue, visited, acc).Ok?
    ensures r.Drain(queue, visited, acc).value.Wf()
    decreases |r.Universe() - visited|, |queue|
  {
    if queue != [] {
      var parsed := ParseComponentRef(queue[0].s);
      if parsed.Some? && parsed.value !in visited {
        var s := parsed.value;
        VisitShrinks(r.Universe(), visited, s);
        if r.GetComponent(s).value.Some? {
          var d := r.GetComponent(s).value.value;
          r.EntryInUniverse(s);
          CatalogAddWf(acc, s.0, s.1, d);
          DrainWf(r, queue[1..] + RefsIn(d), visited + {s}, acc.Add(s.0, s.1, d));
        } else {
          DrainWf(r, queue[1..], visited + {s}, acc);
        }
      } else {
        DrainWf(r, queue[1..], visited, acc);
      }
    }
  }

  lemma {:induction false} SchemeStepsWf(r: ReferenceResolver, names: seq<string>, visited: set<Slot>, acc: Catalog)
    requires acc.Wf() && r.SchemeSteps(names, visited, acc).Ok?
    ensures r.SchemeSteps(names, visited, acc).value.1.Wf()
  {
    if names != [] {
      var init := names[..|names| - 1];
      var x := names[|names| - 1];
      SchemeStepsWf(r, init, visited, acc);
      var st := r.SchemeSteps(init, visited, acc).value;
      if (SecuritySchemes, x) !in st.0 && PyIn(x, r.Section(SecuritySchemes)) == Ok(true) {
        CatalogAddWf(st.1, SecuritySchemes, x, PyIndex(r.Section(SecuritySchemes), x).value);
      }
    }
  }

  /** No category of the result of `resolve_all_refs` names a component twice. */
  lemma ResolveAllWf(r: ReferenceResolver, path: string, httpMethod: string)
    requires r.ResolveAll(path, httpMethod).Success?
    ensures r.ResolveAll(path, httpMethod).value.Wf()
  {
    var found := r.FindOperation(path, httpMethod).value;
    var names := r.SchemeNames(found.1).value;
    assert EmptyCatalog.Wf();
    SchemeStepsWf(r, names, {}, EmptyCatalog);
    var st := r.SchemeSteps(names, {}, EmptyCatalog).value;
    DrainWf(r, r.Seeds(found.0, found.1), st.0, st.1);
  }
}

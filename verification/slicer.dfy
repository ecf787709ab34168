/**
  The endpoint slicer: builds a standalone document holding one path with one
  operation, plus the schemas the resolver collected for it.
*/
module Slicer {
  import opened Text
  import opened JsonTree
  import opened Models
  import opened Resolver

  /** An `EndpointSlicer`: the resolver built over the document (which it shares). */
  datatype EndpointSlicer = EndpointSlicer(resolver: ReferenceResolver)
  {
    function Doc(): Dict
    {
      resolver.doc
    }
  }

  /** `EndpointSlicer(doc, version)`: raises exactly when the resolver's construction does. */
  function NewSlicer(doc: Dict, version: string): (r: Py<EndpointSlicer>)
    ensures r.Ok? <==> NewResolver(doc, version).Ok?
    ensures r.Ok? ==> r.value.Doc() == doc && r.value.resolver == NewResolver(doc, version).value
  {
    match NewResolver(doc, version)
    case Raises => Raises
    case Ok(resolver) => Ok(EndpointSlicer(resolver))
  }

  const DefaultInfo: Json := JObj([Member("title", JStr("Extracted")), Member("version", JStr("1.0.0"))])

  /** The document `extract` returns, or the error it raises. */
  function Slice(s: EndpointSlicer, path: string, httpMethod: string): Result<Dict, ResolveError>
  {
    match s.resolver.FindOperation(path, httpMethod)
    case Failure(e) => Failure(e)
    case Success(found) =>
      match s.resolver.ResolveAll(path, httpMethod)
      case Failure(e) => Failure(e)
      case Success(c) =>
        var base := [
          Member("openapi", GetOr(s.Doc(), "openapi", JStr("3.0.0"))),
          Member("info", GetOr(s.Doc(), "info", DefaultInfo)),
          Member("paths", JObj([Member(path, JObj([Member(Lower(httpMethod), found.1)]))]))];
        if c.schemas != [] || Truthy(s.resolver.Section(Schemas))
        then Success(base + [Member("components", JObj([Member("schemas", JObj(c.schemas))]))])
        else Success(base)
  }

  /**
    `extract`: checks the path and the lower-cased method, builds the skeleton, then copies
    each resolved schema from the document's schemas in a loop.
  */
  method Extract(s: EndpointSlicer, path: string, httpMethod: string) returns (result: Result<Dict, ResolveError>)
    ensures result == Slice(s, path, httpMethod)
  {
    var found := s.resolver.FindOperation(path, httpMethod);
    if found.Failure? {
      return Failure(found.error);
    }
    var methodLower := Lower(httpMethod);
    var extracted := [
      Member("openapi", GetOr(s.Doc(), "openapi", JStr("3.0.0"))),
      Member("info", GetOr(s.Doc(), "info", DefaultInfo)),
      Member("paths", JObj([Member(path, JObj([Member(methodLower, found.value.1)]))]))];
    var resolvedNames := ResolveEndpointRefs(s.resolver, path, httpMethod);
    if resolvedNames.Failure? {
      return Failure(resolvedNames.error);
    }
    var names := resolvedNames.value;
    ghost var c := s.resolver.ResolveAll(path, httpMethod).value;
    var schemas := s.resolver.Section(Schemas);
    if names != [] || Truthy(schemas) {
      ResolveAllSound(s.resolver, path, httpMethod);
      ResolveAllWf(s.resolver, path, httpMethod);
      assert UniqueKeys(c.Section(Schemas));
      var copied: Dict := [];
      for i := 0 to |names|
        invariant copied == c.schemas[..i]
      {
        var schemaName := names[i];
        CopiedSchema(s.resolver, c, i);
        var present := PyIn(schemaName, schemas);
        if present == Ok(true) {
          PutFresh(c.schemas, i);
          copied := Put(copied, schemaName, PyIndex(schemas, schemaName).value);
        }
      }
      assert c.schemas[..|names|] == c.schemas;
      extracted := extracted + [Member("components", JObj([Member("schemas", JObj(copied))]))];
    }
    return Success(extracted);
  }

  /** The i-th resolved schema is in the document's schemas, with the same definition. */
  lemma CopiedSchema(r: ReferenceResolver, c: Catalog, i: nat)
    requires Sound(r, c) && c.Wf() && i < |c.schemas|
    ensures r.Section(Schemas).JObj?
    ensures PyIn(c.schemas[i].key, r.Section(Schemas)) == Ok(true)
    ensures PyIndex(r.Section(Schemas), c.schemas[i].key) == Ok(c.schemas[i].value)
  {
    LookupMember(c.schemas, i);
    assert HasKey(c.Section(Schemas), c.schemas[i].key);
  }

  /** Putting the i-th member onto the first i members of a mapping with unique keys appends it. */
  lemma PutFresh(d: Dict, i: nat)
    requires UniqueKeys(d) && i < |d|
    ensures Put(d[..i], d[i].key, d[i].value) == d[..i + 1]
  {
    LookupAbsent(d[..i], d[i].key);
    PutKeys(d[..i], d[i].key, d[i].value);
    assert d[..i + 1] == d[..i] + [d[i]];
  }

  // ---------------------------------------------------------------------------
  // Properties of the sliced document
  // ---------------------------------------------------------------------------

  /** A missing path or a missing lower-cased method is reported before anything is built. */
  lemma SliceNotFound(s: EndpointSlicer, path: string, httpMethod: string)
    ensures s.resolver.FindOperation(path, httpMethod) == Failure(PathNotFound(path))
      ==> Slice(s, path, httpMethod) == Failure(PathNotFound(path))
    ensures s.resolver.FindOperation(path, httpMethod) == Failure(MethodNotFound(Lower(httpMethod), path))
      ==> Slice(s, path, httpMethod) == Failure(MethodNotFound(Lower(httpMethod), path))
  {
  }

  /**
    The sliced document has the keys `openapi`, `info`, `paths` and possibly `components`, in
    that order; `paths` holds exactly the requested path with exactly the lower-cased method,
    whose value is the document's operation; `openapi` and `info` come from the document or
    their defaults.
  */
  lemma {:induction false} SliceShape(s: EndpointSlicer, path: string, httpMethod: string)
    requires Slice(s, path, httpMethod).Success?
    ensures var out := Slice(s, path, httpMethod).value;
      var paths := GetOr(s.Doc(), "paths", JObj([]));
      UniqueKeys(out)
      && (Keys(out) == ["openapi", "info", "paths"] || Keys(out) == ["openapi", "info", "paths", "components"])
      && Lookup(out, "openapi") == Some(GetOr(s.Doc(), "openapi", JStr("3.0.0")))
      && Lookup(out, "info") == Some(GetOr(s.Doc(), "info", DefaultInfo))
      && paths.JObj? && HasKey(paths.members, path)
      && var pathItem := Lookup(paths.members, path).value;
         pathItem.JObj? && HasKey(pathItem.members, Lower(httpMethod))
         && Lookup(out, "paths") == Some(JObj([Member(path, JObj([Member(Lower(httpMethod), Lookup(pathItem.members, Lower(httpMethod)).value)]))]))
  {
    var found := s.resolver.FindOperation(path, httpMethod).value;
    var c := s.resolver.ResolveAll(path, httpMethod).value;
    FoundOperation(s.resolver, path, httpMethod);
    var extra := if c.schemas != [] || Truthy(s.resolver.Section(Schemas))
                 then [Member("components", JObj([Member("schemas", JObj(c.schemas))]))] else [];
    var openapi, info := GetOr(s.Doc(), "openapi", JStr("3.0.0")), GetOr(s.Doc(), "info", DefaultInfo);
    var paths := JObj([Member(path, JObj([Member(Lower(httpMethod), found.1)]))]);
    SkeletonShape(openapi, info, paths, extra);
    assert Slice(s, path, httpMethod).value
        == [Member("openapi", openapi), Member("info", info), Member("paths", paths)] + extra;
  }

  /** A found operation is the lower-cased method's entry of the path's entry of `paths`. */
  lemma FoundOperation(r: ReferenceResolver, path: string, httpMethod: string)
    requires r.FindOperation(path, httpMethod).Success?
    ensures var paths := GetOr(r.doc, "paths", JObj([]));
      var found := r.FindOperation(path, httpMethod).value;
      paths.JObj? && HasKey(paths.members, path) && found.0 == Lookup(paths.members, path).value
      && found.0.JObj? && HasKey(found.0.members, Lower(httpMethod))
      && found.1 == Lookup(found.0.members, Lower(httpMethod)).value
  { }

  /** The skeleton `extract` builds, possibly followed by `components`. */
  lemma SkeletonShape(openapi: Json, info: Json, paths: Json, extra: Dict)
    requires extra == [] || (|extra| == 1 && extra[0].key == "components")
    ensures var out := [Member("openapi", openapi), Member("info", info), Member("paths", paths)] + extra;
      UniqueKeys(out)
      && (Keys(out) == ["openapi", "info", "paths"] || Keys(out) == ["openapi", "info", "paths", "components"])
      && Lookup(out, "openapi") == Some(openapi) && Lookup(out, "info") == Some(info)
      && Lookup(out, "paths") == Some(paths)
  {
    var out := [Member("openapi", openapi), Member("info", info), Member("paths", paths)] + extra;
    assert Keys(out)[..3] == ["openapi", "info", "paths"];
    LookupMember(out, 0);
    LookupMember(out, 1);
    LookupMember(out, 2);
  }

  /**
    `components` is present exactly when some schema was resolved or the document's schemas
    section is non-empty; it then holds only `schemas`, which is the resolver's schemas
    mapping, each entry equal to the document's definition of that name.
  */
  lemma {:induction false} SliceComponents(s: EndpointSlicer, path: string, httpMethod: string)
    requires Slice(s, path, httpMethod).Success?
    ensures var out := Slice(s, path, httpMethod).value;
      var c := s.resolver.ResolveAll(path, httpMethod).value;
      (HasKey(out, "components") <==> c.schemas != [] || Truthy(s.resolver.Section(Schemas)))
      && (HasKey(out, "components") ==> Lookup(out, "components") == Some(JObj([Member("schemas", JObj(c.schemas))])))
      && forall i :: 0 <= i < |c.schemas| ==> s.resolver.Entry((Schemas, c.schemas[i].key)) == Some(c.schemas[i].value)
  {
    var out := Slice(s, path, httpMethod).value;
    var c := s.resolver.ResolveAll(path, httpMethod).value;
    SliceShape(s, path, httpMethod);
    if |out| == 4 {
      LookupMember(out, 3);
    } else {
      LookupAbsent(out, "components");
    }
    ResolveAllSound(s.resolver, path, httpMethod);
    ResolveAllWf(s.resolver, path, httpMethod);
    forall i | 0 <= i < |c.schemas|
      ensures s.resolver.Entry((Schemas, c.schemas[i].key)) == Some(c.schemas[i].value)
    {
      CopiedSchema(s.resolver, c, i);
    }
  }
}

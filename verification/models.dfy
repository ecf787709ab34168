/**
  Shared data model of the slicing engine: the eight component categories of an
  OpenAPI Components Object, parsed `$ref` pointers, the per-category accumulator
  the resolver fills, validation phases, CSV index rows, and the 3.0-target
  convertibility check.
*/
module Models {
  import opened JsonTree
  import opened Text

  /**
    The eight operation keys of a Path Item Object, in the order the validator looks for
    them and the filter accepts them.
  */
  const OperationMethods: seq<string> := ["get", "post", "put", "delete", "patch", "options", "head", "trace"]

  /** OpenAPI version family. */
  datatype OasVersion = V30 | V31
  {
    function Tag(): string
    {
      match this
      case V30 => "3.0.x"
      case V31 => "3.1.x"
    }

    /** The minor digit of the family. */
    function Minor(): char
    {
      match this
      case V30 => '0'
      case V31 => '1'
    }

    /**
      A version string of this family, as a `"."`-split reading major `3` and this minor
      accepts it: `3.<minor>` alone or followed by a further `.` and anything.
    */
    predicate Describes(s: string)
    {
      s == ['3', '.', Minor()] || StartsWith(s, ['3', '.', Minor(), '.'])
    }
  }

  /** A `"."`-split reading major `"3"` and the family's minor accepts exactly the strings the family describes. */
  lemma {:induction false} DescribesSplit(s: string, v: OasVersion)
    ensures var parts := Split(s, '.');
      (|parts| >= 2 && parts[0] == "3" && parts[1] == [v.Minor()]) <==> v.Describes(s)
  {
    SplitFirstTwo(s, "3", [v.Minor()], '.');
    assert "3" + ['.'] + [v.Minor()] == ['3', '.', v.Minor()];
    assert "3" + ['.'] + [v.Minor()] + ['.'] == ['3', '.', v.Minor(), '.'];
  }

  /** The eight fixed fields of the Components Object (OpenAPI 3.0.3, section 4.7.7). */
  datatype ComponentType =
    | Schemas | Headers | Parameters | Responses
    | RequestBodies | SecuritySchemes | Links | Callbacks
  {
    /** The enum value: the key under `components` and the category segment of a `$ref`. */
    function Name(): string
    {
      match this
      case Schemas => "schemas"
      case Headers => "headers"
      case Parameters => "parameters"
      case Responses => "responses"
      case RequestBodies => "requestBodies"
      case SecuritySchemes => "securitySchemes"
      case Links => "links"
      case Callbacks => "callbacks"
    }

    /** `python_attr_name`: the accumulator field that holds this category. */
    function AttrName(): (r: string)
      ensures r == Name() <==> this != RequestBodies && this != SecuritySchemes
      ensures '/' !in r
    {
      match this
      case RequestBodies => "request_bodies"
      case SecuritySchemes => "security_schemes"
      case _ => Name()
    }
  }

  /** The categories in the order the accumulator serialises them. */
  const AllTypes: seq<ComponentType> :=
    [Schemas, Headers, Parameters, Responses, RequestBodies, SecuritySchemes, Links, Callbacks]

  lemma AllTypesComplete(t: ComponentType)
    ensures t in AllTypes
  {
  }

  /** `ComponentType(value)`: the category whose enum value is `s`, if any. */
  function FromName(s: string): (r: Option<ComponentType>)
    ensures r.Some? ==> r.value.Name() == s
    ensures r.None? ==> forall t: ComponentType :: t.Name() != s
  {
    if s == "schemas" then Some(Schemas)
    else if s == "headers" then Some(Headers)
    else if s == "parameters" then Some(Parameters)
    else if s == "responses" then Some(Responses)
    else if s == "requestBodies" then Some(RequestBodies)
    else if s == "securitySchemes" then Some(SecuritySchemes)
    else if s == "links" then Some(Links)
    else if s == "callbacks" then Some(Callbacks)
    else None
  }

  lemma NameHasNoSlash(t: ComponentType)
    ensures '/' !in t.Name()
  {
  }

  const RefPrefix: string := "#/components/"

  /** `ComponentType.from_ref_path`: the category named by the third `/`-separated part. */
  function FromRefPath(refPath: string): Option<ComponentType>
  {
    if !StartsWith(refPath, RefPrefix) then None
    else
      var parts := Split(refPath, '/');
      if |parts| < 4 then None
      else FromName(parts[2])
  }

  /** A `$ref` pointer to a component, as parsed by `ComponentReference.from_ref_string`. */
  datatype ComponentReference = ComponentReference(
    refString: string,
    componentType: ComponentType,
    componentName: string,
    resolved: bool)

  /** `ComponentReference.from_ref_string`: everything after the category segment is the name. */
  function FromRefString(refString: string): Option<ComponentReference>
  {
    if !StartsWith(refString, RefPrefix) then None
    else
      var parts := Split(refString, '/');
      if |parts| < 4 then None
      else
        var name := Join(parts[3..], "/");
        match FromRefPath(refString)
        case None => None
        case Some(t) => Some(ComponentReference(refString, t, name, false))
  }

  /** How a string that starts with the prefix splits: "#", "components", then the rest's parts. */
  lemma SplitAfterPrefix(rest: string)
    ensures Split(RefPrefix + rest, '/') == ["#", "components"] + Split(rest, '/')
  {
    PrefixParts();
    var tail := "components" + ['/'] + rest;
    assert RefPrefix + rest == "#" + ['/'] + tail;
    SplitAtFirst("#", tail, '/');
    SplitAtFirst("components", rest, '/');
  }

  /** The prefix is two separator-free segments, each followed by `/`. */
  lemma PrefixParts()
    ensures RefPrefix == "#" + ['/'] + "components" + ['/']
    ensures '/' !in "#" && '/' !in "components"
  {
  }

  /**
    A ref path names category `t` exactly when it is `#/components/<t>/<rest>`
    for some rest (which may itself contain `/`).
  */
  lemma {:induction false} FromRefPathShape(refPath: string, t: ComponentType, rest: string)
    ensures refPath == RefPrefix + t.Name() + "/" + rest ==> FromRefPath(refPath) == Some(t)
  {
    if refPath == RefPrefix + t.Name() + "/" + rest {
      BuiltParts(t, rest);
      FromNameName(t);
      AfterTwo("#", "components", [t.Name()] + Split(rest, '/'));
    }
  }

  /** A built reference starts with the prefix and splits into "#", "components", the category and the name's parts. */
  lemma BuiltParts(t: ComponentType, name: string)
    ensures var s := RefPrefix + t.Name() + "/" + name;
      StartsWith(s, RefPrefix) && Split(s, '/') == ["#", "components"] + ([t.Name()] + Split(name, '/'))
  {
    var tail := t.Name() + "/" + name;
    assert RefPrefix + t.Name() + "/" + name == RefPrefix + tail;
    SplitAfterPrefix(tail);
    NameHasNoSlash(t);
    SplitAtFirst(t.Name(), name, '/');
  }

  /** Each category is found again from its own name. */
  lemma FromNameName(t: ComponentType)
    ensures FromName(t.Name()) == Some(t)
  {
    match t
    case Schemas =>
    case Headers =>
    case Parameters =>
    case Responses =>
    case RequestBodies =>
    case SecuritySchemes =>
    case Links =>
    case Callbacks =>
  }

  /** The converse: any path `FromRefPath` accepts has that shape. */
  lemma {:induction false} FromRefPathAccepts(refPath: string)
    requires FromRefPath(refPath).Some?
    ensures exists rest :: refPath == RefPrefix + FromRefPath(refPath).value.Name() + "/" + rest
  {
    var r := RefStringParts(refPath);
  }

  /**
    Decomposes a string that starts with the prefix and has a separator after it:
    returns the segment after the prefix and the rest, with the split parts they give.
  */
  lemma RefStringParts(refPath: string) returns (rest: string)
    requires StartsWith(refPath, RefPrefix) && |Split(refPath, '/')| >= 4
    ensures var parts := Split(refPath, '/');
      refPath == RefPrefix + parts[2] + "/" + rest
      && '/' !in parts[2]
      && parts[3..] == Split(rest, '/')
    ensures FromRefPath(refPath).Some? ==> refPath == RefPrefix + FromRefPath(refPath).value.Name() + "/" + rest
  {
    var tail := PrefixTail(refPath);
    rest := TailParts(tail);
    var parts := Split(refPath, '/');
    AfterTwo("#", "components", Split(tail, '/'));
    assert refPath == RefPrefix + (parts[2] + "/" + rest);
  }

  /** Indexing past two leading parts. */
  lemma AfterTwo(a: string, b: string, xs: seq<string>)
    requires xs != []
    ensures ([a, b] + xs)[2] == xs[0] && ([a, b] + xs)[3..] == xs[1..]
  {
  }

  /** A string that starts with the prefix is the prefix and a tail, and splits accordingly. */
  lemma PrefixTail(refPath: string) returns (tail: string)
    requires StartsWith(refPath, RefPrefix)
    ensures refPath == RefPrefix + tail
    ensures Split(refPath, '/') == ["#", "components"] + Split(tail, '/')
  {
    tail := refPath[|RefPrefix|..];
    assert refPath == refPath[..|RefPrefix|] + tail;
    SplitAfterPrefix(tail);
  }

  /** A string with a separator is its first part, `/`, and a rest that splits into the other parts. */
  lemma TailParts(tail: string) returns (rest: string)
    requires |Split(tail, '/')| >= 2
    ensures tail == Split(tail, '/')[0] + "/" + rest
    ensures '/' !in Split(tail, '/')[0] && Split(tail, '/')[1..] == Split(rest, '/')
  {
    var k := FirstSep(tail);
    rest := tail[k + 1..];
    assert tail == tail[..k] + ['/'] + rest;
    SplitAtFirst(tail[..k], rest, '/');
  }

  /** Index of the first separator in a string that splits into at least two parts. */
  lemma {:induction false} FirstSep(s: string) returns (k: nat)
    requires |Split(s, '/')| >= 2
    ensures k < |s| && s[k] == '/' && '/' !in s[..k]
  {
    if '/' !in s {
      SplitWithoutSep(s, '/');
      assert false;
    }
    k := 0;
    while s[k] != '/'
      invariant k < |s| && '/' !in s[..k]
      invariant '/' in s[k..]
      decreases |s| - k
    {
      assert s[k..] == [s[k]] + s[k + 1..];
      assert s[..k + 1] == s[..k] + [s[k]];
      k := k + 1;
    }
  }

  /**
    Round trip of `from_ref_string`: a parsed reference rebuilds its string, and the
    name is everything after the category segment, slashes included.
  */
  lemma {:induction false} FromRefStringRoundTrip(refString: string)
    requires FromRefString(refString).Some?
    ensures var c := FromRefString(refString).value;
      RefPrefix + c.componentType.Name() + "/" + c.componentName == refString
      && c.refString == refString && !c.resolved
  {
    var parts := Split(refString, '/');
    var rest := RefStringParts(refString);
    JoinSplit(rest, '/');
  }

  /** Conversely, every `#/components/<category>/<name>` string parses back to that category and name. */
  lemma {:induction false} FromRefStringBuild(t: ComponentType, name: string)
    ensures FromRefString(RefPrefix + t.Name() + "/" + name)
         == Some(ComponentReference(RefPrefix + t.Name() + "/" + name, t, name, false))
  {
    var s := RefPrefix + t.Name() + "/" + name;
    FromRefPathShape(s, t, name);
    BuiltParts(t, name);
    AfterTwo("#", "components", [t.Name()] + Split(name, '/'));
    assert ([t.Name()] + Split(name, '/'))[1..] == Split(name, '/');
    JoinSplit(name, '/');
  }

  // ---------------------------------------------------------------------------
  // Accumulator of resolved components
  // ---------------------------------------------------------------------------

  /** One mapping per category: the value of a `ResolvedComponents` object. */
  datatype Catalog = Catalog(
    schemas: Dict, headers: Dict, parameters: Dict, responses: Dict,
    requestBodies: Dict, securitySchemes: Dict, links: Dict, callbacks: Dict)
  {
    function Section(t: ComponentType): Dict
    {
      match t
      case Schemas => schemas
      case Headers => headers
      case Parameters => parameters
      case Responses => responses
      case RequestBodies => requestBodies
      case SecuritySchemes => securitySchemes
      case Links => links
      case Callbacks => callbacks
    }

    function WithSection(t: ComponentType, d: Dict): (c: Catalog)
      ensures c.Section(t) == d
      ensures forall u :: u != t ==> c.Section(u) == Section(u)
    {
      match t
      case Schemas => this.(schemas := d)
      case Headers => this.(headers := d)
      case Parameters => this.(parameters := d)
      case Responses => this.(responses := d)
      case RequestBodies => this.(requestBodies := d)
      case SecuritySchemes => this.(securitySchemes := d)
      case Links => this.(links := d)
      case Callbacks => this.(callbacks := d)
    }

    /** `add`: `getattr(self, attr)[name] = definition` on a value. */
    function Add(t: ComponentType, name: string, definition: Json): Catalog
    {
      WithSection(t, Put(Section(t), name, definition))
    }

    /** Every category mapping has unique keys. */
    predicate Wf()
    {
      forall t: ComponentType :: UniqueKeys(Section(t))
    }
  }

  const EmptyCatalog: Catalog := Catalog([], [], [], [], [], [], [], [])

  /** After adding, the slot holds the definition and every other slot is as before. */
  lemma CatalogAdd(c: Catalog, t: ComponentType, name: string, d: Json, u: ComponentType, n: string)
    ensures Lookup(c.Add(t, name, d).Section(u), n)
         == if u == t && n == name then Some(d) else Lookup(c.Section(u), n)
  {
    LookupPut(c.Section(t), name, d, n);
  }

  lemma CatalogAddAll(c: Catalog, t: ComponentType, name: string, d: Json)
    ensures Lookup(c.Add(t, name, d).Section(t), name) == Some(d)
    ensures forall u: ComponentType, n: string :: (u != t || n != name) ==>
      Lookup(c.Add(t, name, d).Section(u), n) == Lookup(c.Section(u), n)
  {
    forall u: ComponentType, n: string
      ensures Lookup(c.Add(t, name, d).Section(u), n)
           == if u == t && n == name then Some(d) else Lookup(c.Section(u), n)
    {
      CatalogAdd(c, t, name, d, u, n);
    }
  }

  lemma CatalogAddWf(c: Catalog, t: ComponentType, name: string, d: Json)
    requires c.Wf()
    ensures c.Add(t, name, d).Wf()
  {
    PutUnique(c.Section(t), name, d);
  }

  /**
    The `components` mapping made of the non-empty categories among `ts`, in order:
    what `to_components_dict`'s loop has built after visiting `ts`.
  */
  function NonEmptySections(c: Catalog, ts: seq<ComponentType>): Dict
  {
    if ts == [] then []
    else NonEmptySections(c, ts[..|ts| - 1]) + Piece(c, ts[|ts| - 1])
  }

  /** The entry `to_components_dict` contributes for one category. */
  function Piece(c: Catalog, t: ComponentType): Dict
  {
    if c.Section(t) != [] then [Member(t.Name(), JObj(c.Section(t)))] else []
  }

  /**
    The serialised components have a key exactly for each non-empty category, under
    its OpenAPI name (`requestBodies`, `securitySchemes`), holding that category's mapping.
  */
  lemma {:induction false} NonEmptySectionsLookup(c: Catalog, ts: seq<ComponentType>, t: ComponentType)
    ensures Lookup(NonEmptySections(c, ts), t.Name())
         == if t in ts && c.Section(t) != [] then Some(JObj(c.Section(t))) else None
  {
    if ts != [] {
      var last := ts[|ts| - 1];
      var init := ts[..|ts| - 1];
      NonEmptySectionsLookup(c, init, t);
      LookupAppend(NonEmptySections(c, init), Piece(c, last), t.Name());
      PieceLookup(c, last, t);
      LastIn(ts, t);
    }
  }

  lemma PieceLookup(c: Catalog, last: ComponentType, t: ComponentType)
    ensures Lookup(Piece(c, last), t.Name())
         == if t == last && c.Section(last) != [] then Some(JObj(c.Section(last))) else None
  {
    NameInjective(t, last);
  }

  lemma LastIn<T>(ts: seq<T>, t: T)
    requires ts != []
    ensures t in ts <==> t in ts[..|ts| - 1] || t == ts[|ts| - 1]
  {
    assert ts == ts[..|ts| - 1] + [ts[|ts| - 1]];
  }

  /** Different categories have different names. */
  lemma NameInjective(t: ComponentType, u: ComponentType)
    ensures t.Name() == u.Name() ==> t == u
  {
    FromNameName(t);
    FromNameName(u);
  }

  /** Every member of the serialised components is a non-empty category under its name. */
  lemma {:induction false} NonEmptySectionsMembers(c: Catalog, ts: seq<ComponentType>, i: nat)
    requires i < |NonEmptySections(c, ts)|
    ensures var m := NonEmptySections(c, ts)[i];
      FromName(m.key).Some? && c.Section(FromName(m.key).value) != []
      && m.value == JObj(c.Section(FromName(m.key).value))
  {
    var last := ts[|ts| - 1];
    var init := ts[..|ts| - 1];
    if i < |NonEmptySections(c, init)| {
      NonEmptySectionsMembers(c, init, i);
    } else {
      FromNameName(last);
    }
  }

  /** The accumulator the resolver fills: one mapping per category, updated in place. */
  class ResolvedComponents {
    var schemas: Dict
    var headers: Dict
    var parameters: Dict
    var responses: Dict
    var requestBodies: Dict
    var securitySchemes: Dict
    var links: Dict
    var callbacks: Dict

    constructor ()
      ensures Model() == EmptyCatalog
    {
      schemas, headers, parameters, responses := [], [], [], [];
      requestBodies, securitySchemes, links, callbacks := [], [], [], [];
    }

    function Model(): Catalog
      reads this
    {
      Catalog(schemas, headers, parameters, responses, requestBodies, securitySchemes, links, callbacks)
    }

    /** `add`: stores the definition under the name in the category's mapping. */
    method Add(t: ComponentType, name: string, definition: Json)
      modifies this
      ensures Model() == old(Model()).Add(t, name, definition)
      ensures Has(t, name) && Get(t, name) == Some(definition)
      ensures forall u: ComponentType, n: string :: (u != t || n != name) ==> Get(u, n) == old(Get(u, n))
    {
      var c := Model().Add(t, name, definition);
      CatalogAddAll(Model(), t, name, definition);
      schemas, headers, parameters, responses := c.schemas, c.headers, c.parameters, c.responses;
      requestBodies, securitySchemes, links, callbacks := c.requestBodies, c.securitySchemes, c.links, c.callbacks;
    }

    /** `has` */
    predicate Has(t: ComponentType, name: string)
      reads this
    {
      HasKey(Model().Section(t), name)
    }

    /** `get` */
    function Get(t: ComponentType, name: string): Option<Json>
      reads this
    {
      Lookup(Model().Section(t), name)
    }

    /** `to_components_dict`: the non-empty categories, keyed by their OpenAPI names. */
    method ToComponentsDict() returns (result: Dict)
      ensures result == NonEmptySections(Model(), AllTypes)
      ensures forall t: ComponentType :: Lookup(result, t.Name())
                == if Model().Section(t) != [] then Some(JObj(Model().Section(t))) else None
    {
      result := [];
      var i := 0;
      while i < |AllTypes|
        invariant 0 <= i <= |AllTypes|
        invariant result == NonEmptySections(Model(), AllTypes[..i])
      {
        var t := AllTypes[i];
        var components := Model().Section(t);
        if components != [] {
          result := result + [Member(t.Name(), JObj(components))];
        }
        assert AllTypes[..i + 1][..i] == AllTypes[..i];
        i := i + 1;
      }
      assert AllTypes[..|AllTypes|] == AllTypes;
      forall t: ComponentType
        ensures Lookup(result, t.Name()) == if Model().Section(t) != [] then Some(JObj(Model().Section(t))) else None
      {
        AllTypesComplete(t);
        NonEmptySectionsLookup(Model(), AllTypes, t);
      }
    }

    /** `is_empty`: no category holds anything. */
    predicate IsEmpty()
      reads this
      ensures IsEmpty() <==> TotalCount() == 0
    {
      schemas == [] && headers == [] && parameters == [] && responses == []
      && requestBodies == [] && securitySchemes == [] && links == [] && callbacks == []
    }

    /** `total_count`: the number of entries over all categories. */
    function TotalCount(): nat
      reads this
    {
      |schemas| + |headers| + |parameters| + |responses|
      + |requestBodies| + |securitySchemes| + |links| + |callbacks|
    }
  }

  // ---------------------------------------------------------------------------
  // Validation phases, CSV rows, convertibility
  // ---------------------------------------------------------------------------

  /** The seven checkpoints, numbered 1 to 7 in the order they run. */
  datatype ValidationPhase =
    | FileStructure | OperationIntegrity | ResponseIntegrity | ReferenceResolution
    | ComponentCompleteness | PayloadEquivalence | VersionValidation
  {
    /** The enum value: the phase's position, counting from 1, in the run order. */
    function Number(): (n: nat)
      ensures 1 <= n <= |PhaseOrder| && PhaseOrder[n - 1] == this
    {
      match this
      case FileStructure => 1
      case OperationIntegrity => 2
      case ResponseIntegrity => 3
      case ReferenceResolution => 4
      case ComponentCompleteness => 5
      case PayloadEquivalence => 6
      case VersionValidation => 7
    }
  }

  /** The phases in the order the validator runs them. */
  const PhaseOrder: seq<ValidationPhase> := [
    FileStructure, OperationIntegrity, ResponseIntegrity, ReferenceResolution,
    ComponentCompleteness, PayloadEquivalence, VersionValidation
  ]

  /** The numbers are distinct and count up along the run order. */
  lemma PhaseNumbers(p: ValidationPhase, q: ValidationPhase)
    ensures p.Number() == q.Number() <==> p == q
    ensures forall i :: 0 <= i < |PhaseOrder| ==> PhaseOrder[i].Number() == i + 1
  {
  }

  /** The index file's column names, in order. */
  const CsvHeaders: seq<string> := [
    "path", "method", "summary", "description", "operation_id", "tags", "filename",
    "file_size_kb", "schema_count", "parameter_count", "response_codes",
    "security_required", "deprecated", "created_at", "output_oas_version"]

  /** One row of the CSV index; `fileSizeKb` is kept as the text Python renders for the float. */
  datatype CsvIndexEntry = CsvIndexEntry(
    path: string, httpMethod: string, summary: Option<string>, description: Option<string>,
    operationId: Option<string>, tags: string, filename: string, fileSizeKb: string,
    schemaCount: int, parameterCount: int, responseCodes: string,
    securityRequired: bool, deprecated: bool, createdAt: string, outputOasVersion: string)
  {
    /** `to_csv_row` */
    function ToCsvRow(): (row: seq<string>)
      ensures |row| == |CsvHeaders|
      ensures forall i :: 0 <= i < |row| ==> Column(CsvHeaders[i]) == Some(row[i])
    {
      [path, httpMethod, OrEmpty(summary), OrEmpty(description), OrEmpty(operationId), tags,
       filename, fileSizeKb, DecimalString(schemaCount), DecimalString(parameterCount),
       responseCodes, YesNo(securityRequired), YesNo(deprecated), createdAt, outputOasVersion]
    }

    /** The cell a reader of the index finds under a column name. */
    function Column(name: string): Option<string>
    {
      if name == "path" then Some(path)
      else if name == "method" then Some(httpMethod)
      else if name == "summary" then Some(OrEmpty(summary))
      else if name == "description" then Some(OrEmpty(description))
      else if name == "operation_id" then Some(OrEmpty(operationId))
      else if name == "tags" then Some(tags)
      else if name == "filename" then Some(filename)
      else if name == "file_size_kb" then Some(fileSizeKb)
      else if name == "schema_count" then Some(DecimalString(schemaCount))
      else if name == "parameter_count" then Some(DecimalString(parameterCount))
      else if name == "response_codes" then Some(responseCodes)
      else if name == "security_required" then Some(YesNo(securityRequired))
      else if name == "deprecated" then Some(YesNo(deprecated))
      else if name == "created_at" then Some(createdAt)
      else if name == "output_oas_version" then Some(outputOasVersion)
      else None
    }
  }

  /** `value or ""` for an optional string. */
  function OrEmpty(s: Option<string>): (r: string)
    ensures s.None? ==> r == ""
    ensures s.Some? ==> r == s.value
  {
    match s
    case None => ""
    case Some(v) => v
  }

  /** `"yes" if b else "no"` */
  function YesNo(b: bool): (r: string)
    ensures r == "yes" || r == "no"
    ensures r == "yes" <==> b
  {
    if b then "yes" else "no"
  }

  /** Counts are written as decimal text that reads back as the count. */
  lemma CsvCountsReadBack(e: CsvIndexEntry)
    requires e.schemaCount >= 0 && e.parameterCount >= 0
    ensures DigitsValue(e.ToCsvRow()[8]) == e.schemaCount
    ensures DigitsValue(e.ToCsvRow()[9]) == e.parameterCount
  {
    NatDigitsRoundTrip(e.schemaCount);
    NatDigitsRoundTrip(e.parameterCount);
  }

  /** A mapping with a top-level JSON Schema conditional keyword. */
  predicate HasTopLevelConditional(schema: Json)
  {
    schema.JObj? && (HasKey(schema.members, "if") || HasKey(schema.members, "then") || HasKey(schema.members, "else"))
  }

  /** `VersionConverter` of the model file: the conversion direction it is configured for. */
  datatype VersionConverter = VersionConverter(sourceVersion: OasVersion, targetVersion: OasVersion)
  {
    /**
      `can_convert`: a 3.0 target refuses a document whose component schemas carry a
      top-level `if`/`then`/`else`; `.get`/`.values()` on a non-mapping raise.
    */
    function CanConvert(doc: Dict): (r: Py<bool>)
      ensures targetVersion != V30 ==> r == Ok(true)
      ensures r == Ok(false) <==>
        targetVersion == V30 && ComponentSchemaValues(doc).Ok?
        && exists i :: 0 <= i < |ComponentSchemaValues(doc).value| && HasTopLevelConditional(ComponentSchemaValues(doc).value[i].value)
    {
      if targetVersion != V30 then Ok(true)
      else
        match ComponentSchemaValues(doc)
        case Raises => Raises
        case Ok(schemas) => Ok(!AnyConditional(schemas))
    }
  }

  /** `doc.get('components', {}).get('schemas', {})` as a mapping whose values are iterated. */
  function ComponentSchemaValues(doc: Dict): Py<Dict>
  {
    var components := GetOr(doc, "components", JObj([]));
    match PyGet(components, "schemas", JObj([]))
    case Raises => Raises
    case Ok(schemas) => if schemas.JObj? then Ok(schemas.members) else Raises
  }

  /** The loop of `can_convert`: is there a schema with a top-level conditional? */
  function AnyConditional(schemas: Dict): (r: bool)
    ensures r <==> exists i :: 0 <= i < |schemas| && HasTopLevelConditional(schemas[i].value)
  {
    if schemas == [] then false
    else if HasTopLevelConditional(schemas[0].value) then true
    else
      var r := AnyConditional(schemas[1..]);
      assert forall i :: 0 < i < |schemas| ==> schemas[i] == schemas[1..][i - 1];
      r
  }

  /**
    A phase's error message: a text the validator composes, or the text of an exception it
    caught, whose wording belongs to the Python runtime and is not modelled.
  */
  datatype ErrorMessage = Reported(text: string) | Caught

  /** The outcome of one validation phase. */
  datatype ValidationResult = ValidationResult(phase: ValidationPhase, passed: bool, errorMessage: Option<ErrorMessage>)

  function Pass(phase: ValidationPhase): ValidationResult
  {
    ValidationResult(phase, true, None)
  }

  function Fail(phase: ValidationPhase, message: ErrorMessage): ValidationResult
  {
    ValidationResult(phase, false, Some(message))
  }
}

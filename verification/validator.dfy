/**
  The seven-phase checkpoint validation of an extracted document: the phases run in
  order and the first one that fails decides the result.
*/
module Validator {
  import opened Text
  import opened JsonTree
  import opened Models

  /** The `$ref` prefix phase 4 checks. */
  const SchemaRefPrefix: string := "#/components/schemas/"

  // ---------------------------------------------------------------------------
  // Phase 1: file structure
  // ---------------------------------------------------------------------------

  predicate FileStructureHolds(doc: Json)
  {
    doc.JObj? && HasKey(doc.members, "openapi") && HasKey(doc.members, "info")
    && HasKey(doc.members, "paths") && Lookup(doc.members, "paths").value.JObj?
  }

  // ---------------------------------------------------------------------------
  // Phase 2: operation integrity
  // ---------------------------------------------------------------------------

  /** An operation that has a non-empty `responses`. */
  predicate OperationOk(operation: Json)
  {
    operation.JObj? && HasKey(operation.members, "responses")
    && Truthy(Lookup(operation.members, "responses").value)
  }

  /** A path item with at least one of the eight methods, each of them an operation with responses. */
  predicate PathItemOperationsOk(item: Json)
  {
    item.JObj?
    && (exists k :: 0 <= k < |OperationMethods| && HasKey(item.members, OperationMethods[k]))
    && forall k :: 0 <= k < |OperationMethods| && HasKey(item.members, OperationMethods[k])
         ==> OperationOk(Lookup(item.members, OperationMethods[k]).value)
  }

  predicate OperationIntegrityHolds(doc: Json)
  {
    doc.JObj?
    && var paths := GetOr(doc.members, "paths", JObj([]));
       Truthy(paths) && paths.JObj?
       && forall i :: 0 <= i < |paths.members| ==> PathItemOperationsOk(paths.members[i].value)
  }

  /** The inner loop of phase 2 over the methods of one path item: `None` when it finds nothing wrong. */
  method CheckPathOperations(path: string, item: Dict) returns (err: Option<ErrorMessage>)
    ensures err.None? <==> PathItemOperationsOk(JObj(item))
  {
    var foundMethod := false;
    for k := 0 to |OperationMethods|
      invariant foundMethod <==> exists j :: 0 <= j < k && HasKey(item, OperationMethods[j])
      invariant forall j :: 0 <= j < k && HasKey(item, OperationMethods[j]) ==> OperationOk(Lookup(item, OperationMethods[j]).value)
    {
      var m := OperationMethods[k];
      if HasKey(item, m) {
        foundMethod := true;
        var operation := Lookup(item, m).value;
        var missing := "Operation '" + m + " " + path + "' missing 'responses' field";
        var present := PyIn("responses", operation);
        if present.Raises? {
          return Some(Caught);
        }
        if !present.value {
          return Some(Reported(missing));
        }
        var responses := PyIndex(operation, "responses");
        if responses.Raises? {
          return Some(Caught);
        }
        if !Truthy(responses.value) {
          return Some(Reported(missing));
        }
      }
    }
    if !foundMethod {
      return Some(Reported("Path '" + path + "' has no valid HTTP methods"));
    }
    return None;
  }

  // ---------------------------------------------------------------------------
  // Phase 3: response integrity
  // ---------------------------------------------------------------------------

  /** A response object with a `description`. */
  predicate ResponseOk(response: Json)
  {
    response.JObj? && HasKey(response.members, "description")
  }

  /** A non-empty responses mapping whose every response is an object with a description. */
  predicate ResponsesOk(responses: Json)
  {
    Truthy(responses) && responses.JObj?
    && forall i :: 0 <= i < |responses.members| ==> ResponseOk(responses.members[i].value)
  }

  /** Only a dict entry holding `responses` is checked; anything else in the path item is skipped. */
  predicate OperationResponsesOk(operation: Json)
  {
    operation.JObj? && HasKey(operation.members, "responses")
    ==> ResponsesOk(Lookup(operation.members, "responses").value)
  }

  predicate PathItemResponsesOk(item: Json)
  {
    item.JObj? && forall i :: 0 <= i < |item.members| ==> OperationResponsesOk(item.members[i].value)
  }

  predicate ResponseIntegrityHolds(doc: Json)
  {
    doc.JObj?
    && var paths := GetOr(doc.members, "paths", JObj([]));
       paths.JObj? && forall i :: 0 <= i < |paths.members| ==> PathItemResponsesOk(paths.members[i].value)
  }

  /** The innermost loop of phase 3, over the response codes of one operation. */
  method CheckResponses(responses: Dict) returns (err: Option<ErrorMessage>)
    ensures err.None? <==> forall i :: 0 <= i < |responses| ==> ResponseOk(responses[i].value)
  {
    for i := 0 to |responses|
      invariant forall j :: 0 <= j < i ==> ResponseOk(responses[j].value)
    {
      var code, response := responses[i].key, responses[i].value;
      if !response.JObj? {
        return Some(Reported("Response " + code + " is not an object"));
      }
      if !HasKey(response.members, "description") {
        return Some(Reported("Response " + code + " missing 'description' field"));
      }
    }
    return None;
  }

  /** The middle loop of phase 3, over the entries of one path item. */
  method CheckPathResponses(path: string, item: Dict) returns (err: Option<ErrorMessage>)
    ensures err.None? <==> PathItemResponsesOk(JObj(item))
  {
    for i := 0 to |item|
      invariant forall j :: 0 <= j < i ==> OperationResponsesOk(item[j].value)
    {
      var methodName, operation := item[i].key, item[i].value;
      if operation.JObj? && HasKey(operation.members, "responses") {
        var responses := Lookup(operation.members, "responses").value;
        if !Truthy(responses) {
          return Some(Reported("No responses defined for " + Upper(methodName) + " " + path));
        }
        if !responses.JObj? {
          return Some(Caught);
        }
        var bad := CheckResponses(responses.members);
        if bad.Some? {
          return bad;
        }
      }
    }
    return None;
  }

  // ---------------------------------------------------------------------------
  // Phase 4: reference resolution
  // ---------------------------------------------------------------------------

  /** The check of one `$ref` value: an error text when it names a schema `schemas` lacks. */
  function CheckRef(ref: Json, schemas: Json): Py<Option<string>>
  {
    if !ref.JStr? then Raises
    else if !StartsWith(ref.s, SchemaRefPrefix) then Ok(None)
    else
      match PyIn(ReplaceAll(ref.s, SchemaRefPrefix, ""), schemas)
      case Raises => Raises
      case Ok(found) =>
        if found then Ok(None) else Ok(Some(UnresolvedText(ref.s)))
  }

  function UnresolvedText(ref: string): string
  {
    "Reference '" + ref + "' not found in components.schemas"
  }

  /** A text naming a reference into the schemas section. */
  ghost predicate NamesSchemaRef(text: string)
  {
    exists ref :: StartsWith(ref, SchemaRefPrefix) && text == UnresolvedText(ref)
  }

  /** `find_unresolved_refs`: the first error text in a depth-first, member-order walk. */
  function FindUnresolved(obj: Json, schemas: Json): Py<Option<string>>
    decreases obj
  {
    match obj
    case JObj(ms) =>
      var own := if HasKey(ms, "$ref") then CheckRef(Lookup(ms, "$ref").value, schemas) else Ok(None);
      if own != Ok(None) then own else FindInValues(ms, schemas)
    case JArr(xs) => FindInItems(xs, schemas)
    case _ => Ok(None)
  }

  function FindInValues(ms: Dict, schemas: Json): Py<Option<string>>
    decreases ms
  {
    if ms == [] then Ok(None)
    else
      var first := FindUnresolved(ms[0].value, schemas);
      if first != Ok(None) then first else FindInValues(ms[1..], schemas)
  }

  function FindInItems(xs: seq<Json>, schemas: Json): Py<Option<string>>
    decreases xs
  {
    if xs == [] then Ok(None)
    else
      var first := FindUnresolved(xs[0], schemas);
      if first != Ok(None) then first else FindInItems(xs[1..], schemas)
  }

  /**
    A `$ref` value phase 4 accepts: a string that, when it points into the schemas
    section, names (after removing every copy of the prefix) an entry of `schemas`.
    References into any other section are not checked.
  */
  predicate RefResolved(ref: Json, schemas: Json)
  {
    ref.JStr?
    && (StartsWith(ref.s, SchemaRefPrefix) ==> PyIn(ReplaceAll(ref.s, SchemaRefPrefix, ""), schemas) == Ok(true))
  }

  /** Every `$ref` anywhere inside `obj` is accepted. */
  predicate RefsResolved(obj: Json, schemas: Json)
    decreases obj
  {
    match obj
    case JObj(ms) =>
      (HasKey(ms, "$ref") ==> RefResolved(Lookup(ms, "$ref").value, schemas))
      && forall i :: 0 <= i < |ms| ==> RefsResolved(ms[i].value, schemas)
    case JArr(xs) => forall i :: 0 <= i < |xs| ==> RefsResolved(xs[i], schemas)
    case _ => true
  }

  /** The walk finds nothing (and raises nothing) exactly when every `$ref` in the tree is accepted. */
  lemma {:induction false} FindUnresolvedNone(obj: Json, schemas: Json)
    ensures FindUnresolved(obj, schemas) == Ok(None) <==> RefsResolved(obj, schemas)
    decreases obj
  {
    match obj
    case JObj(ms) =>
      FindInValuesNone(ms, schemas);
    case JArr(xs) =>
      FindInItemsNone(xs, schemas);
    case _ =>
  }

  lemma {:induction false} FindInValuesNone(ms: Dict, schemas: Json)
    ensures FindInValues(ms, schemas) == Ok(None) <==> forall i :: 0 <= i < |ms| ==> RefsResolved(ms[i].value, schemas)
    decreases ms
  {
    if ms != [] {
      FindUnresolvedNone(ms[0].value, schemas);
      FindInValuesNone(ms[1..], schemas);
      assert forall i :: 0 < i < |ms| ==> ms[i] == ms[1..][i - 1];
    }
  }

  lemma {:induction false} FindInItemsNone(xs: seq<Json>, schemas: Json)
    ensures FindInItems(xs, schemas) == Ok(None) <==> forall i :: 0 <= i < |xs| ==> RefsResolved(xs[i], schemas)
    decreases xs
  {
    if xs != [] {
      FindUnresolvedNone(xs[0], schemas);
      FindInItemsNone(xs[1..], schemas);
      assert forall i :: 0 < i < |xs| ==> xs[i] == xs[1..][i - 1];
    }
  }

  /** A reported text always names the offending schema reference. */
  lemma {:induction false} FindUnresolvedMessage(obj: Json, schemas: Json)
    requires FindUnresolved(obj, schemas).Ok? && FindUnresolved(obj, schemas).value.Some?
    ensures NamesSchemaRef(FindUnresolved(obj, schemas).value.value)
    decreases obj
  {
    match obj
    case JObj(ms) =>
      if !(HasKey(ms, "$ref") && CheckRef(Lookup(ms, "$ref").value, schemas) != Ok(None)) {
        FindInValuesMessage(ms, schemas);
      }
    case JArr(xs) =>
      FindInItemsMessage(xs, schemas);
  }

  lemma {:induction false} FindInValuesMessage(ms: Dict, schemas: Json)
    requires FindInValues(ms, schemas).Ok? && FindInValues(ms, schemas).value.Some?
    ensures NamesSchemaRef(FindInValues(ms, schemas).value.value)
    decreases ms
  {
    if FindUnresolved(ms[0].value, schemas) != Ok(None) {
      FindUnresolvedMessage(ms[0].value, schemas);
    } else {
      FindInValuesMessage(ms[1..], schemas);
    }
  }

  lemma {:induction false} FindInItemsMessage(xs: seq<Json>, schemas: Json)
    requires FindInItems(xs, schemas).Ok? && FindInItems(xs, schemas).value.Some?
    ensures NamesSchemaRef(FindInItems(xs, schemas).value.value)
    decreases xs
  {
    if FindUnresolved(xs[0], schemas) != Ok(None) {
      FindUnresolvedMessage(xs[0], schemas);
    } else {
      FindInItemsMessage(xs[1..], schemas);
    }
  }

  /** `components.schemas` as phase 4 reads it (both default to an empty dict). */
  function ComponentSchemas(doc: Dict): Json
  {
    var components := GetOr(doc, "components", JObj([]));
    if components.JObj? then GetOr(components.members, "schemas", JObj([])) else JNull
  }

  predicate ReferenceResolutionHolds(doc: Json)
  {
    doc.JObj? && GetOr(doc.members, "components", JObj([])).JObj?
    && RefsResolved(GetOr(doc.members, "paths", JObj([])), ComponentSchemas(doc.members))
  }

  // ---------------------------------------------------------------------------
  // Phase 7: version
  // ---------------------------------------------------------------------------

  /** The OAS versions phase 7 accepts: 3.0 and 3.1, alone or followed by `.` and anything. */
  predicate VersionHolds(doc: Json)
  {
    doc.JObj?
    && var field := GetOr(doc.members, "openapi", JStr(""));
       field.JStr? && (V30.Describes(field.s) || V31.Describes(field.s))
  }

  // ---------------------------------------------------------------------------
  // The validator
  // ---------------------------------------------------------------------------

  predicate AllPhasesHold(doc: Json)
  {
    FileStructureHolds(doc) && OperationIntegrityHolds(doc) && ResponseIntegrityHolds(doc)
    && ReferenceResolutionHolds(doc) && VersionHolds(doc)
  }

  /** Whether the document passes one phase; phases 5 and 6 always pass. */
  predicate PhaseHolds(doc: Json, p: ValidationPhase)
  {
    match p
    case FileStructure => FileStructureHolds(doc)
    case OperationIntegrity => OperationIntegrityHolds(doc)
    case ResponseIntegrity => ResponseIntegrityHolds(doc)
    case ReferenceResolution => ReferenceResolutionHolds(doc)
    case ComponentCompleteness => true
    case PayloadEquivalence => true
    case VersionValidation => VersionHolds(doc)
  }

  /**
    The phases run in the order of their numbers: every phase numbered below the reported
    one passes, the reported phase fails unless every phase passes, and the document passes
    exactly when all seven phases do.
  */
  lemma FirstFailingOrder(doc: Json)
    ensures forall p: ValidationPhase :: p.Number() < FirstFailing(doc).Number() ==> PhaseHolds(doc, p)
    ensures !AllPhasesHold(doc) ==> !PhaseHolds(doc, FirstFailing(doc))
    ensures AllPhasesHold(doc) <==> forall p: ValidationPhase :: PhaseHolds(doc, p)
  {
  }

  /** The phase the checkpoint strategy stops at: the first failing one, else the last. */
  function FirstFailing(doc: Json): ValidationPhase
  {
    if !FileStructureHolds(doc) then FileStructure
    else if !OperationIntegrityHolds(doc) then OperationIntegrity
    else if !ResponseIntegrityHolds(doc) then ResponseIntegrity
    else if !ReferenceResolutionHolds(doc) then ReferenceResolution
    else VersionValidation
  }

  /** `EndpointValidator(doc, version, original_doc)`; `None` stands for an absent original. */
  datatype EndpointValidator = EndpointValidator(doc: Json, version: string, originalDoc: Option<Json>)
  {
    /** Phase 1: the document is a dict with `openapi`, `info` and a dict `paths`. */
    function ValidateFileStructure(): (r: ValidationResult)
      ensures r.phase == FileStructure
      ensures r.passed <==> FileStructureHolds(doc)
      ensures r.passed <==> r.errorMessage.None?
    {
      if !doc.JObj? then Fail(FileStructure, Reported("Document is not a dictionary"))
      else if !HasKey(doc.members, "openapi") then Fail(FileStructure, Reported("Missing 'openapi' field"))
      else if !HasKey(doc.members, "info") then Fail(FileStructure, Reported("Missing 'info' field"))
      else if !HasKey(doc.members, "paths") || !Lookup(doc.members, "paths").value.JObj? then
        Fail(FileStructure, Reported("Missing or invalid 'paths' field"))
      else Pass(FileStructure)
    }

    /**
      Phase 2: `paths` is non-empty and every path item is an object with at least one of
      the eight methods, each of them an operation with non-empty `responses`.
    */
    method ValidateOperationIntegrity() returns (r: ValidationResult)
      ensures r.phase == OperationIntegrity
      ensures r.passed <==> OperationIntegrityHolds(doc)
      ensures r.passed <==> r.errorMessage.None?
    {
      if !doc.JObj? {
        return Fail(OperationIntegrity, Caught);
      }
      var paths := GetOr(doc.members, "paths", JObj([]));
      if !Truthy(paths) {
        return Fail(OperationIntegrity, Reported("No paths defined in document"));
      }
      if !paths.JObj? {
        return Fail(OperationIntegrity, Caught);
      }
      var entries := paths.members;
      for i := 0 to |entries|
        invariant forall j :: 0 <= j < i ==> PathItemOperationsOk(entries[j].value)
      {
        var path, pathItem := entries[i].key, entries[i].value;
        if !pathItem.JObj? {
          return Fail(OperationIntegrity, Reported("Path '" + path + "' is not a valid path item object"));
        }
        var err := CheckPathOperations(path, pathItem.members);
        if err.Some? {
          return Fail(OperationIntegrity, err.value);
        }
      }
      return Pass(OperationIntegrity);
    }

    /**
      Phase 3: every path item is an object, and every dict entry in it that holds
      `responses` has a non-empty responses object whose every response is an object with a
      `description`.
    */
    method ValidateResponseIntegrity() returns (r: ValidationResult)
      ensures r.phase == ResponseIntegrity
      ensures r.passed <==> ResponseIntegrityHolds(doc)
      ensures r.passed <==> r.errorMessage.None?
    {
      if !doc.JObj? {
        return Fail(ResponseIntegrity, Caught);
      }
      var paths := GetOr(doc.members, "paths", JObj([]));
      if !paths.JObj? {
        return Fail(ResponseIntegrity, Caught);
      }
      var entries := paths.members;
      for i := 0 to |entries|
        invariant forall j :: 0 <= j < i ==> PathItemResponsesOk(entries[j].value)
      {
        var path, pathItem := entries[i].key, entries[i].value;
        if !pathItem.JObj? {
          return Fail(ResponseIntegrity, Caught);
        }
        var err := CheckPathResponses(path, pathItem.members);
        if err.Some? {
          return Fail(ResponseIntegrity, err.value);
        }
      }
      return Pass(ResponseIntegrity);
    }

    /**
      Phase 4: passes exactly when `components` is a dict and every `$ref` under `paths`
      that points into `#/components/schemas/` names an entry of `components.schemas`.
    */
    function ValidateReferenceResolution(): (r: ValidationResult)
      ensures r.phase == ReferenceResolution
      ensures r.passed <==> ReferenceResolutionHolds(doc)
      ensures r.passed <==> r.errorMessage.None?
    {
      if !doc.JObj? then Fail(ReferenceResolution, Caught)
      else
        match PyGet(GetOr(doc.members, "components", JObj([])), "schemas", JObj([]))
        case Raises => Fail(ReferenceResolution, Caught)
        case Ok(schemas) =>
          var paths := GetOr(doc.members, "paths", JObj([]));
          FindUnresolvedNone(paths, schemas);
          match FindUnresolved(paths, schemas)
          case Raises => Fail(ReferenceResolution, Caught)
          case Ok(None) => Pass(ReferenceResolution)
          case Ok(Some(text)) => Fail(ReferenceResolution, Reported(text))
    }

    /** Phase 5 always passes. */
    function ValidateComponentCompleteness(): (r: ValidationResult)
      ensures r == Pass(ComponentCompleteness)
    {
      Pass(ComponentCompleteness)
    }

    /** Phase 6 always passes, with or without an original document. */
    function ValidatePayloadEquivalence(): (r: ValidationResult)
      ensures r == Pass(PayloadEquivalence)
    {
      if originalDoc.None? || !Truthy(originalDoc.value) then Pass(PayloadEquivalence)
      else Pass(PayloadEquivalence)
    }

    /**
      Phase 7: passes exactly when `openapi` is a string of the 3.0 or 3.1 family — `3.0`,
      `3.1`, or one of them followed by `.` and anything.
    */
    function ValidateVersion(): (r: ValidationResult)
      ensures r.phase == VersionValidation
      ensures r.passed <==> VersionHolds(doc)
      ensures r.passed <==> r.errorMessage.None?
    {
      if !doc.JObj? then Fail(VersionValidation, Caught)
      else
        var field := GetOr(doc.members, "openapi", JStr(""));
        if !field.JStr? then Fail(VersionValidation, Reported("Invalid 'openapi' field format"))
        else
          var parts := Split(field.s, '.');
          DescribesSplit(field.s, V30);
          DescribesSplit(field.s, V31);
          if |parts| < 2 then Fail(VersionValidation, Reported("Invalid OAS version format: " + field.s))
          else if parts[0] == "3" && (parts[1] == "0" || parts[1] == "1") then Pass(VersionValidation)
          else Fail(VersionValidation, Reported("Unsupported OAS version: " + field.s + " (must be 3.0.x or 3.1.x)"))
    }

    /**
      `validate`: runs the phases in order and returns the first failing result, else phase
      7's. It passes exactly when every phase does, and otherwise reports the first failing
      phase with a message.
    */
    method Validate() returns (r: ValidationResult)
      ensures r.passed <==> AllPhasesHold(doc)
      ensures r.phase == FirstFailing(doc)
      ensures r.passed <==> r.errorMessage.None?
    {
      r := ValidateFileStructure();
      if !r.passed {
        return r;
      }
      r := ValidateOperationIntegrity();
      if !r.passed {
        return r;
      }
      r := ValidateResponseIntegrity();
      if !r.passed {
        return r;
      }
      r := ValidateReferenceResolution();
      if !r.passed {
        return r;
      }
      r := ValidateComponentCompleteness();
      if !r.passed {
        return r;
      }
      r := ValidatePayloadEquivalence();
      if !r.passed {
        return r;
      }
      r := ValidateVersion();
    }
  }
}

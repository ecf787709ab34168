/** Version detection on a parsed document. Reading and parsing the file is not modelled. */
module Parser {
  import opened Text
  import opened JsonTree
  import opened Models
  import Validator

  /**
    The `openapi` text `detect_oas_version` reads: only a non-empty mapping is looked at,
    a missing field reads as `""`, and a field that is not a string gives nothing.
  */
  function OpenApiText(doc: Option<Json>): Option<string>
  {
    if doc.None? || !doc.value.JObj? || doc.value.members == [] then None
    else
      var field := GetOr(doc.value.members, "openapi", JStr(""));
      if field.JStr? then Some(field.s) else None
  }

  /**
    `detect_oas_version`: `"3.0.x"` or `"3.1.x"` exactly when the `openapi` text is described
    by that family (a `"."`-split reading major `3` and that minor), and nothing otherwise.
  */
  function DetectOasVersion(doc: Option<Json>): (r: Option<string>)
    ensures r == Some(V30.Tag()) <==> OpenApiText(doc).Some? && V30.Describes(OpenApiText(doc).value)
    ensures r == Some(V31.Tag()) <==> OpenApiText(doc).Some? && V31.Describes(OpenApiText(doc).value)
    ensures r.Some? ==> r == Some(V30.Tag()) || r == Some(V31.Tag())
  {
    if doc.None? || !Truthy(doc.value) || !doc.value.JObj? then None
    else
      var field := GetOr(doc.value.members, "openapi", JStr(""));
      if !field.JStr? then None
      else
        var parts := Split(field.s, '.');
        DescribesSplit(field.s, V30);
        DescribesSplit(field.s, V31);
        if |parts| >= 2 && parts[0] == "3" then
          if parts[1] == "0" then Some("3.0.x")
          else if parts[1] == "1" then Some("3.1.x")
          else None
        else None
  }

  /**
    On a non-empty mapping, detection finds a family exactly when the version phase of
    validation passes.
  */
  lemma {:induction false} DetectAgreesWithValidation(ms: Dict)
    requires ms != []
    ensures DetectOasVersion(Some(JObj(ms))).Some? <==> Validator.VersionHolds(JObj(ms))
  {
  }

  /** A document with this `openapi` text and nothing else. */
  function VersionedDoc(version: string): Option<Json>
  {
    Some(JObj([Member("openapi", JStr(version))]))
  }

  /** The minor version may stand alone or be followed by patch and further parts. */
  lemma DetectFamilyExamples()
    ensures DetectOasVersion(VersionedDoc("3.0")) == Some("3.0.x")
    ensures DetectOasVersion(VersionedDoc("3.0.3")) == Some("3.0.x")
    ensures DetectOasVersion(VersionedDoc("3.0.3.9")) == Some("3.0.x")
    ensures DetectOasVersion(VersionedDoc("3.1.0")) == Some("3.1.x")
  {
    assert V30.Tag() == "3.0.x" && V31.Tag() == "3.1.x";
    assert OpenApiText(VersionedDoc("3.0")) == Some("3.0");
    assert V30.Describes("3.0");
    assert OpenApiText(VersionedDoc("3.0.3")) == Some("3.0.3");
    assert StartsWith("3.0.3", "3.0.");
    assert OpenApiText(VersionedDoc("3.0.3.9")) == Some("3.0.3.9");
    assert StartsWith("3.0.3.9", "3.0.");
    assert OpenApiText(VersionedDoc("3.1.0")) == Some("3.1.0");
    assert StartsWith("3.1.0", "3.1.");
  }
}

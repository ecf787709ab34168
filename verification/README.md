# slice-oas-by-resource: a verified model of the slicing engine

This project models, in Dafny, the in-memory engine of `slice_oas`. The engine takes an
OpenAPI 3.x document and cuts out one endpoint (one path and one HTTP method) as a standalone
document. The model covers these parts:

- **Reference model** (`models.dfy`, module `Models`)
  - the eight categories of the Components Object (OpenAPI 3.0.3, section 4.7.7);
  - parsing of `#/components/<category>/<name>` reference strings;
  - the per-category accumulator `ResolvedComponents`, a class whose `Add` updates one of eight fields in place;
  - the seven validation phases;
  - the rows of the CSV index;
  - the 3.0-target convertibility check.
- **Reference resolver** (`resolver.dfy`, module `Resolver`)
  - the breadth-first walk over `$ref` strings with a visited set of (category, name) pairs;
  - the recursive `$ref` scan, including its special pass over `headers` mappings;
  - name-based resolution of security schemes: an operation's `security` overrides the document's, even when it is empty (OpenAPI 3.0.3, sections 4.7.10 and 4.7.30).
  - The walk is a `while` loop method proved against a specification function, `Drain`. The properties are proved about that function: termination, soundness, closure and reachability.
- **Endpoint slicer** (`slicer.dfy`, module `Slicer`): the one-path, one-method skeleton plus the resolved schemas, copied in a loop.
- **Validator** (`validator.dfy`, module `Validator`)
  - the seven phases in order, stopping at the first that fails;
  - the nested loops of phases 2 and 3, each a method proved against a predicate;
  - the recursive search for unresolved schema references of phase 4.
- **Version converter** (`converter.dfy`, module `Converter`)
  - nullable ↔ type-array rewriting, recursive through `properties`, `items`, `allOf`, `oneOf` and `anyOf`;
  - the discriminator rewrites (Discriminator Object, OpenAPI 3.0.3, section 4.7.25);
  - removal of `webhooks` and of mutual-TLS security schemes;
  - relocation of `license.identifier`;
  - the conditional-keyword check;
  - the warnings and errors lists and strict mode;
  - `convert_version`.
- **Small helpers**
  - `detect_oas_version` (`parser.dfy`);
  - `sanitize_path` (`output_manager.dfy`);
  - `EndpointFilter` and `filter_endpoints` (`filters.dfy`).
- **Supporting modules**
  - `json_tree.dfy` (module `JsonTree`) gives JSON values and Python `dict` semantics:
    - lookup finds the first match;
    - assignment replaces in place or appends;
    - `del` removes the entry.
    It also models the `TypeError`/`AttributeError` that Python raises on a wrongly typed value, as `Py<T> = Ok(value) | Raises`.
  - `text.dfy` (module `Text`) gives the string operations the source calls: `split`, `join`, `startswith`, `replace`, `strip`, `lower`, `str(int)`.

Python's `deepcopy` becomes value semantics: a converted or sliced document is a new value, and the caller's document cannot change.

The source's runtime errors are modelled as values:
- `KeyError` for a missing path or method is `Failure(PathNotFound(..))` or `Failure(MethodNotFound(..))`.
- An exception caught inside a validation phase or inside `convert` becomes that phase's failure, or the `Caught` error.

## Model

| member | source | states |
|---|---|---|
| `Models.DescribesSplit` | src/slice_oas/parser.py:59-68 | a `.`-split whose first part is "3" and second the family's minor accepts exactly `3.<minor>` and `3.<minor>.…` |
| `Models.ComponentType.AttrName` | src/slice_oas/models.py:62-75 | the attribute name equals the enum value except for `requestBodies`/`securitySchemes`, and has no `/` |
| `Models.AllTypesComplete` | src/slice_oas/models.py:26-39 | the list of categories contains every category |
| `Models.FromName` | src/slice_oas/models.py:56-60 | `ComponentType(s)` yields the category whose value is `s`; `None` only when no category has that value |
| `Models.NameHasNoSlash` | src/slice_oas/models.py:32-39 | no category value contains `/` |
| `Models.FromNameName` | src/slice_oas/models.py:56-60 | every category is found again from its own value |
| `Models.FromRefPathShape` | src/slice_oas/models.py:41-60 | `#/components/<value of t>/<rest>` is parsed to `t` |
| `Models.FromRefPathAccepts` | src/slice_oas/models.py:41-60 | conversely, every path `from_ref_path` accepts is `#/components/<category>/<rest>` for the category it returns |
| `Models.RefStringParts` | src/slice_oas/models.py:172-177 | a string with the prefix and at least four parts is the prefix, part 2, `/` and a rest whose parts are parts 3 onward |
| `Models.FromRefStringRoundTrip` | src/slice_oas/models.py:162-192 | on success, prefix + category + `/` + name rebuilds the string exactly, so names containing `/` are kept whole; `resolved` is false |
| `Models.FromRefStringBuild` | src/slice_oas/models.py:162-192 | every `#/components/<category>/<name>` parses back to that category and name |
| `Models.CatalogAdd` | src/slice_oas/models.py:210-219 | after adding, the slot holds the definition and every other (category, name) slot reads as before |
| `Models.CatalogAddAll` | src/slice_oas/models.py:210-219 | the same for all slots at once |
| `Models.CatalogAddWf` | src/slice_oas/models.py:210-219 | adding keeps every category free of duplicate names |
| `Models.NonEmptySectionsLookup` | src/slice_oas/models.py:247-269 | the components mapping has a key for category `t` exactly when `t` is listed and non-empty, and it holds that category's mapping |
| `Models.NonEmptySectionsMembers` | src/slice_oas/models.py:247-269 | every entry of the components mapping is a non-empty category under its OpenAPI name |
| `Models.ResolvedComponents.constructor` | src/slice_oas/models.py:195-208 | a new accumulator holds nothing in any category |
| `Models.ResolvedComponents.Add` | src/slice_oas/models.py:210-245 | after `add(t, n, d)`: `has(t, n)`, `get(t, n) == d`, every other slot unchanged |
| `Models.ResolvedComponents.ToComponentsDict` | src/slice_oas/models.py:247-269 | the loop's result has a key exactly for each non-empty category, named `requestBodies`/`securitySchemes` where the attribute differs |
| `Models.ResolvedComponents.IsEmpty` | src/slice_oas/models.py:271-295 | `is_empty()` holds iff `total_count() == 0` |
| `Models.ValidationPhase.Number` | src/slice_oas/models.py:78-86 | phase n is the n-th entry, counting from 1, of the run order `PhaseOrder` |
| `Models.PhaseNumbers` | src/slice_oas/models.py:78-86 | the seven numbers are distinct, and they count 1 to 7 along the run order |
| `Models.CsvIndexEntry.ToCsvRow` | src/slice_oas/models.py:346-367 | 15 fields, the i-th being the value of the i-th header column |
| `Models.OrEmpty` | src/slice_oas/models.py:355-357 | an absent optional string is written as "" and a present one as itself |
| `Models.YesNo` | src/slice_oas/models.py:365-366 | booleans are written "yes" exactly when true, "no" otherwise |
| `Models.CsvCountsReadBack` | src/slice_oas/models.py:363-364 | the schema and parameter counts are written as decimal text that reads back as the count |
| `Models.VersionConverter.CanConvert` | src/slice_oas/models.py:388-397 | false iff the target is 3.0 and some component schema has a top-level `if`/`then`/`else`; always true for a 3.1 target |
| `Models.AnyConditional` | src/slice_oas/models.py:392-396 | the loop finds a schema with a top-level conditional iff one exists |
| `Resolver.ScanForRefs` | src/slice_oas/resolver.py:240-268 | appends to the queue exactly the refs `RefsIn(obj)` collects, in scan order |
| `Resolver.ScanMembers` | src/slice_oas/resolver.py:255-264 | the `for key, value` loop appends the header refs and the nested refs of each entry in turn |
| `Resolver.ScanHeaders` | src/slice_oas/resolver.py:258-262 | the pass over a `headers` mapping appends each header's direct `$ref`, or the refs inside a header without one |
| `Resolver.ScanItems` | src/slice_oas/resolver.py:266-268 | the list loop appends each item's refs in turn |
| `Resolver.HeaderRefFound` | src/slice_oas/resolver.py:257-260 | the direct `$ref` of every header of a `headers` mapping is enqueued |
| `Resolver.NestedRefFound` | src/slice_oas/resolver.py:249-268 | the `$ref` of every mapping nested anywhere in the scanned value is enqueued |
| `Resolver.ParseComponentRef` | src/slice_oas/resolver.py:132-155 | a parsed ref is exactly prefix + category + `/` + name; `None` only for strings of no such shape |
| `Resolver.ParseComponentRefRejects` | src/slice_oas/resolver.py:141-155 | `http://external.com/schema`, `#/paths/foo` and `""` parse to nothing |
| `Resolver.ReferenceResolver.GetComponent` | src/slice_oas/resolver.py:157-177 | `.get(name)` on the category: raises iff the section is not a mapping; a found value is the document's entry |
| `Resolver.ReferenceResolver.EffectiveSecurity` | src/slice_oas/resolver.py:212-218 | the operation's `security` unless it is absent or null, then the document's `security` (default `[]`) |
| `Resolver.VisitShrinks` | src/slice_oas/resolver.py:117-121 | visiting a new slot of the universe shrinks the unvisited part, which bounds the walk |
| `Resolver.NewResolver` | src/slice_oas/resolver.py:24-46 | construction raises iff `components` is present and not a mapping; otherwise keeps the document and its components |
| `Resolver.ResolveSecuritySchemesInto` | src/slice_oas/resolver.py:196-238 | the method leaves the visited set and accumulator the specification function gives, or reports the raise |
| `Resolver.AddRequirements` | src/slice_oas/resolver.py:225-238 | the outer loop over security requirements processes their scheme names in order |
| `Resolver.AddNamedSchemes` | src/slice_oas/resolver.py:227-238 | the inner loop over scheme names extends the processed prefix one name at a time and stops at a raise |
| `Resolver.SchemeStepInto` | src/slice_oas/resolver.py:228-238 | one scheme name: skip if visited, else mark visited and copy its definition if defined |
| `Resolver.RequirementsRaiseOn` | src/slice_oas/resolver.py:225-238 | a raise on the first requirements is the raise of the whole loop |
| `Resolver.ResolveAllRefs` | src/slice_oas/resolver.py:63-130 | returns `KeyError` for a missing path or lower-cased method, else a fresh accumulator holding exactly the result of `ResolveAll` |
| `Resolver.DrainInto` | src/slice_oas/resolver.py:108-128 | the `while queue` loop ends with the accumulator `Drain` computes from the starting queue, visited set and accumulator |
| `Resolver.ResolveEndpointRefs` | src/slice_oas/resolver.py:48-61 | exactly the keys of the resolved schemas, each defined in the document's schemas |
| `Resolver.AddKeepsInv` | src/slice_oas/resolver.py:121-128 | collecting an unvisited slot and enqueuing its refs keeps the walk invariant |
| `Resolver.DrainClosed` | src/slice_oas/resolver.py:108-130 | the walk's result is sound, closed under `$ref` except inside the slots visited before the walk began, grows the accumulator and covers every queued ref |
| `Resolver.DrainStep` | src/slice_oas/resolver.py:108-128 | one iteration keeps the invariant and the remaining result, covers the popped ref and decreases (unvisited slots, queue length) |
| `Resolver.DrainStepSkip` | src/slice_oas/resolver.py:110-120 | unparseable or already visited refs and missing entries are skipped silently |
| `Resolver.DrainStepFound` | src/slice_oas/resolver.py:121-128 | a found entry is collected under its slot and its refs are enqueued |
| `Resolver.SchemeStepsExact` | src/slice_oas/resolver.py:179-194 | from scratch, the visited set is the named schemes and each named scheme holds the document's definition if it has one |
| `Resolver.SchemeStepEffect` | src/slice_oas/resolver.py:228-238 | one name marks its slot visited and copies the definition only if not visited before; other names unchanged |
| `Resolver.EmptySecurityNoSchemes` | src/slice_oas/resolver.py:215-222 | `security: []` on the operation adds nothing, whatever the document's security is |
| `Resolver.ResolveAllSound` | src/slice_oas/resolver.py:63-130 | every resolved entry equals the document's entry, every seed ref is covered, and the result is closed under `$ref` except inside the security schemes collected by name, which the walk never scans |
| `Resolver.ReachableResolved` | src/slice_oas/resolver.py:97-128 | every existing component reachable by a `$ref` chain from the path parameters and the operation is in the result, for chains that do not pass through a security scheme collected by name |
| `Resolver.DrainWf` | src/slice_oas/resolver.py:108-128 | the walk never stores a name twice in a category |
| `Resolver.SchemeStepsWf` | src/slice_oas/resolver.py:225-238 | security resolution never stores a name twice |
| `Resolver.ResolveAllWf` | src/slice_oas/resolver.py:63-130 | no category of the result names a component twice |
| `Slicer.NewSlicer` | src/slice_oas/slicer.py:14-23 | construction raises exactly when the resolver's does, and keeps the document |
| `Slicer.Extract` | src/slice_oas/slicer.py:25-72 | the method, with its copy loop, returns exactly `Slice`, whose shape the lemmas below give |
| `Slicer.CopiedSchema` | src/slice_oas/slicer.py:66-70 | each resolved schema name is in the document's schemas, with the resolved definition |
| `Slicer.SliceNotFound` | src/slice_oas/slicer.py:39-47 | a missing path or lower-cased method gives the matching `KeyError` |
| `Slicer.SliceShape` | src/slice_oas/slicer.py:49-58 | keys `openapi`, `info`, `paths` (then possibly `components`); `openapi`/`info` copied or defaulted; `paths` is exactly the path with exactly the lower-cased method holding the source operation |
| `Slicer.FoundOperation` | src/slice_oas/slicer.py:40-47 | a found operation is the lower-cased method's entry under the path's entry of `paths` |
| `Slicer.SliceComponents` | src/slice_oas/slicer.py:60-70 | `components` is present iff some schema was resolved or the source schemas are non-empty; it then holds only `schemas`, exactly the resolved ones, each equal to the document's |
| `Validator.CheckPathOperations` | src/slice_oas/validator.py:139-160 | the method loop finds no error iff some method key is present and every present method has non-empty `responses` |
| `Validator.CheckResponses` | src/slice_oas/validator.py:187-208 | the response loop finds no error iff every response is a mapping with `description` |
| `Validator.CheckPathResponses` | src/slice_oas/validator.py:176-208 | the entry loop finds no error iff every mapping entry with `responses` has non-empty, well-formed responses |
| `Validator.FindUnresolvedNone` | src/slice_oas/validator.py:222-244 | the search reports nothing (and raises nothing) iff every schema `$ref` in the tree names a present schema |
| `Validator.FindInValuesNone` | src/slice_oas/validator.py:233-236 | the loop over a mapping's values reports nothing iff each value is resolved |
| `Validator.FindInItemsNone` | src/slice_oas/validator.py:239-242 | the loop over a list's items reports nothing iff each item is resolved |
| `Validator.FindUnresolvedMessage` | src/slice_oas/validator.py:225-231 | a reported message names the unresolved schema reference |
| `Validator.FindInValuesMessage` | src/slice_oas/validator.py:233-236 | the same for the values loop |
| `Validator.FindInItemsMessage` | src/slice_oas/validator.py:239-242 | the same for the items loop |
| `Validator.EndpointValidator.ValidateFileStructure` | src/slice_oas/validator.py:78-117 | phase 1 passes iff the document is a mapping with `openapi`, `info` and a mapping `paths`; a failure carries a message |
| `Validator.EndpointValidator.ValidateOperationIntegrity` | src/slice_oas/validator.py:119-169 | phase 2 passes iff `paths` is non-empty and every path item is a mapping with a method key whose operations have non-empty `responses`; raises become failures |
| `Validator.EndpointValidator.ValidateResponseIntegrity` | src/slice_oas/validator.py:171-217 | phase 3 passes iff every mapping-valued entry with `responses` has non-empty responses, each a mapping with `description`; raises become failures |
| `Validator.EndpointValidator.ValidateReferenceResolution` | src/slice_oas/validator.py:219-266 | phase 4 passes iff every `#/components/schemas/` ref under `paths` names a key of `components.schemas` |
| `Validator.EndpointValidator.ValidateComponentCompleteness` | src/slice_oas/validator.py:268-272 | phase 5 always passes |
| `Validator.EndpointValidator.ValidatePayloadEquivalence` | src/slice_oas/validator.py:274-281 | phase 6 always passes, with or without an original document |
| `Validator.EndpointValidator.ValidateVersion` | src/slice_oas/validator.py:283-318 | phase 7 passes iff `openapi` is a string whose `.`-split has at least two parts, "3" then "0" or "1" |
| `Validator.EndpointValidator.Validate` | src/slice_oas/validator.py:29-76 | returns the first failing phase in order 1..7, else the phase-7 pass; passes iff every phase holds |
| `Validator.FirstFailingOrder` | src/slice_oas/validator.py:29-76 | every phase numbered below the reported one passes; the reported phase fails unless all pass; the document passes iff each of the seven phases does |
| `Parser.DetectOasVersion` | src/slice_oas/parser.py:42-70 | "3.0.x" / "3.1.x" iff the `openapi` text is `3.0`/`3.1` optionally followed by `.…`; nothing else is returned |
| `Parser.DetectAgreesWithValidation` | src/slice_oas/parser.py:59-68 | for a non-empty mapping, a family is detected exactly when validator phase 7 passes |
| `Parser.DetectFamilyExamples` | src/slice_oas/parser.py:58-68 | "3.0", "3.0.3" and "3.0.3.9" give "3.0.x"; "3.1.0" gives "3.1.x" |
| `OutputManager.CollapseHyphensSpec` | src/slice_oas/output_manager.py:36-37 | collapsing leaves no hyphen run, keeps the first character and adds no character |
| `OutputManager.CollapseHyphensFree` | src/slice_oas/output_manager.py:36-37 | a text without hyphen runs is unchanged |
| `OutputManager.CollapseHyphensShorten` | src/slice_oas/output_manager.py:36-37 | a run one hyphen shorter collapses to the same text |
| `OutputManager.StripKeeps` | src/slice_oas/output_manager.py:39-40 | after stripping, the name neither starts nor ends with `-` and is still free of runs, `/` and `.` |
| `OutputManager.LowerKeeps` | src/slice_oas/output_manager.py:42-43 | lower-casing leaves no upper-case ASCII letter and moves no hyphen |
| `OutputManager.TidiedSafe` | src/slice_oas/output_manager.py:36-43 | the last three steps give either nothing or a safe name |
| `OutputManager.Dashed` | src/slice_oas/output_manager.py:30-34 | no `/` and no `.` survive the replacements |
| `OutputManager.SanitizedIsSafe` | src/slice_oas/output_manager.py:9-46 | every result is non-empty, has no `/`, `.`, `--`, leading or trailing `-`, nor upper-case ASCII letter; "/" falls back to "root" |
| `OutputManager.ReplaceParamsFree` | src/slice_oas/output_manager.py:27-28 | a text without `{` passes the parameter step unchanged |
| `OutputManager.ReplaceParamsSplice` | src/slice_oas/output_manager.py:27-28 | a leading `{name}` becomes `-name` and the scan continues after `}` |
| `OutputManager.ReplaceParamsPrefix` | src/slice_oas/output_manager.py:27-28 | text before the first `{` is copied |
| `OutputManager.ReplaceOneParam` | src/slice_oas/output_manager.py:27-28 | a single `{name}` becomes `-name` with the rest copied |
| `OutputManager.TidySafe` | src/slice_oas/output_manager.py:36-43 | a safe name passes the last three steps unchanged |
| `OutputManager.SanitizeSafe` | src/slice_oas/output_manager.py:9-46 | sanitising is idempotent on names that are already safe and brace-free |
| `OutputManager.TidyDoubleHyphen` | src/slice_oas/output_manager.py:36-40 | two safe names joined by `--` tidy to the names joined by one `-` |
| `OutputManager.SanitizeUsersId` | src/slice_oas/output_manager.py:13 | "/users/{id}" gives "users-id" |
| `OutputManager.SanitizeProductReviews` | src/slice_oas/output_manager.py:14 | "/api/v1/products/{id}/reviews" gives "api-v1-products-id-reviews" |
| `OutputManager.SanitizeUsers` | src/slice_oas/output_manager.py:15 | "/users" gives "users" |
| `Filters.NewFilter` | src/slice_oas/filters.py:14-33 | construction fails with "Invalid regex pattern: …" iff the filter is a regex filter with a truthy pattern that does not compile |
| `Filters.Matches` | src/slice_oas/filters.py:35-51 | with no pattern (absent or empty) every path matches |
| `Filters.MethodKeysExact` | src/slice_oas/filters.py:71-74 | the kept keys are exactly the item's keys whose lower-case form is one of the eight methods |
| `Filters.Pairs` | src/slice_oas/filters.py:76-77 | one `(path, key)` pair per kept key, in order |
| `Filters.FilterEndpoints` | src/slice_oas/filters.py:53-79 | the nested loops return exactly `Endpoints`, whose content and order the lemmas below give |
| `Filters.ItemEndpointsExact` | src/slice_oas/filters.py:66-77 | one entry of `paths` contributes exactly the pairs it selects |
| `Filters.EndpointsRaise` | src/slice_oas/filters.py:66-74 | filtering raises iff some matching path has an item that is not a mapping |
| `Filters.EndpointsExact` | src/slice_oas/filters.py:64-79 | the result holds `(p, k)` iff `p` is a matching path and `k` a method key of its item, in its original case |
| `Filters.MethodKeysOrder` | src/slice_oas/filters.py:71-74 | method keys come out in the item's order |
| `Filters.EndpointsOrder` | src/slice_oas/filters.py:64-79 | pairs come out in path order, then key order within each path item |
| `Filters.EarlierPaths` | src/slice_oas/filters.py:66-77 | every reported path is a key of `paths` |
| `Filters.MethodKeyExamples` | src/slice_oas/filters.py:71-74 | "get", "GET" and "Patch" are method keys; "parameters", "summary" and "servers" are not |
| `Converter.NonNull` | src/slice_oas/converter.py:220 | exactly the members other than "null" are kept |
| `Converter.ProcessNested` | src/slice_oas/converter.py:188-198 | the nested walk keeps every key and its order |
| `Converter.ProcessEntry` | src/slice_oas/converter.py:189-198 | an entry keeps its key |
| `Converter.ProcessValuesAt` | src/slice_oas/converter.py:190-192 | every property value is processed as a schema |
| `Converter.ProcessItemsAt` | src/slice_oas/converter.py:196-198 | every list item is processed as a schema |
| `Converter.ProcessNestedLookup` | src/slice_oas/converter.py:189-198 | after the walk each key holds the processed form of its original value |
| `Converter.NonNullAppend` | src/slice_oas/converter.py:183-184 | appending "null" does not change the non-null members |
| `Converter.NullableToTypeArrayEffect` | src/slice_oas/converter.py:179-186 | `nullable: true` with string type t (default "object") gives `[t, "null"]`; a list gains "null" if missing; `nullable` is deleted; other keys unchanged |
| `Converter.RetypeDropNullable` | src/slice_oas/converter.py:181-186 | setting `type` then deleting `nullable` keeps every other key |
| `Converter.DropNullable` | src/slice_oas/converter.py:185-186 | deleting `nullable` keeps every other key |
| `Converter.TypeArrayToNullableEffect` | src/slice_oas/converter.py:219-223 | a type list containing "null" becomes its first non-null member (if any) plus `nullable: true`; other keys unchanged |
| `Converter.NullableRoundTrip` | src/slice_oas/converter.py:179-223 | `{type: t, nullable: true, …}` survives 3.0 → 3.1 → 3.0 key by key |
| `Converter.TypeArrayRoundTrip` | src/slice_oas/converter.py:179-223 | `{type: [t, "null"], …}` survives 3.1 → 3.0 → 3.1 key by key |
| `Converter.NullableSchemaRoundTrip` | src/slice_oas/converter.py:175-234 | the schema `{type: t, nullable: true}` survives 3.0 → 3.1 → 3.0 exactly |
| `Converter.NestedUntouched` | src/slice_oas/converter.py:189-198 | a schema with only `type`/`nullable` has nothing nested to rewrite |
| `Converter.NullableStepExample` | src/slice_oas/converter.py:179-186 | `{type: t, nullable: true}` becomes `{type: [t, "null"]}` |
| `Converter.TypeArrayStepExample` | src/slice_oas/converter.py:219-223 | `{type: [t, "null"]}` becomes `{type: t, nullable: true}` |
| `Converter.ProcessSchemaShape` | src/slice_oas/converter.py:175-198 | either rewrite keeps distinct keys, every key but `type`/`nullable`, `required` as it is and the key set of `properties` |
| `Converter.RequiredKept` | src/slice_oas/converter.py:175-198 | `required` is untouched by either rewrite |
| `Converter.PropertiesKept` | src/slice_oas/converter.py:189-192 | the key set of `properties` is unchanged by either rewrite |
| `Converter.TopStepFrame` | src/slice_oas/converter.py:179-223 | either top-level step keeps distinct keys and changes nothing but `type` and `nullable`, so every key the walk descends into is left as it was |
| `Converter.EntryOutsideNested` | src/slice_oas/converter.py:189-198 | entries under keys other than the five nested ones are left as they are |
| `Converter.PropertiesRoundTrip` | src/slice_oas/converter.py:175-234 | 3.0 → 3.1 → 3.0 keeps `required` and the property key set |
| `Converter.NullableGone` | src/slice_oas/converter.py:175-198 | after 3.0 → 3.1 no `nullable: true` is left anywhere the walk reaches |
| `Converter.NestedGone` | src/slice_oas/converter.py:188-198 | the same for each nested entry |
| `Converter.RefMappingLookup` | src/slice_oas/converter.py:258-264 | the mapping maps each last `$ref` segment to the last `oneOf` ref with that name; it is empty iff no entry has a `$ref` |
| `Converter.DiscriminatorToMappingEffect` | src/slice_oas/converter.py:254-266 | with `propertyName` and at least one `oneOf` ref, `mapping` is set from the refs and nothing else changes; otherwise the schema is unchanged |
| `Converter.DiscriminatorToPropertyEffect` | src/slice_oas/converter.py:273-281 | with a `mapping`, it is deleted and `propertyName` defaults to "type"; nothing else changes; otherwise the schema is unchanged |
| `Converter.DiscriminatorInner` | src/slice_oas/converter.py:277-281 | the discriminator loses `mapping`, gains `propertyName` "type" if absent, keeps the rest |
| `Converter.MapSchemas` | src/slice_oas/converter.py:254-255 | succeeds iff each schema's rewrite does, then rewrites every schema in place, keeping names and order |
| `Converter.RewriteSchemas` | src/slice_oas/converter.py:200-202 | the loop over component schemas returns exactly `MapSchemas` |
| `Converter.MutualTlsNames` | src/slice_oas/converter.py:288 | every collected name is a mutual-TLS scheme's key |
| `Converter.MutualTlsNamesComplete` | src/slice_oas/converter.py:288 | every mutual-TLS scheme's key is collected |
| `Converter.KeepNonMutualTls` | src/slice_oas/converter.py:286-291 | what is left holds no mutual-TLS scheme |
| `Converter.WithoutMutualTls` | src/slice_oas/converter.py:288-290 | deleting the collected names keeps exactly the other schemes, in order |
| `Converter.RemoveWithout` | src/slice_oas/converter.py:289-290 | deleting one more name extends the deleted list |
| `Converter.WithoutFree` | src/slice_oas/converter.py:288-290 | deleting names that cover every mutual-TLS scheme leaves none |
| `Converter.RemoveMutualTlsSchemes` | src/slice_oas/converter.py:283-292 | the deletion loop keeps exactly the non-mutual-TLS schemes and reports a removal iff one was collected |
| `Converter.RemoveMutualTlsEffect` | src/slice_oas/converter.py:283-292 | only `components` changes; no mutual-TLS scheme is left; the flag is set iff there was one |
| `Converter.MoveLicenseFrame` | src/slice_oas/converter.py:294-305 | the flag is set iff `info.license.identifier` exists; otherwise the document is unchanged; only `info` changes |
| `Converter.MoveLicenseEffect` | src/slice_oas/converter.py:294-305 | `identifier` is deleted, `name` kept or set from it, other license keys unchanged |
| `Converter.ApplyToComponentSchemasEffect` | src/slice_oas/converter.py:200-202 | only `components.schemas` changes, and it becomes the rewritten schemas |
| `Converter.RewriteParameterSchemasFrame` | src/slice_oas/converter.py:204-211 | the parameter walk touches only `paths` |
| `Converter.RewriteParameterSchemasEffect` | src/slice_oas/converter.py:204-211 | without `paths` the document is kept; otherwise `paths` keeps its keys and order, and in every mapping operation whose `parameters` is a list, each mapping parameter holding `schema` has that schema processed, with nothing else changed |
| `Converter.RewritePathItemsAt` | src/slice_oas/converter.py:205-207 | the path-item loop keeps keys and order, and rewrites each mapping path item operation by operation |
| `Converter.RewriteOperationsAt` | src/slice_oas/converter.py:207-209 | the operation loop keeps keys and order, rewrites each mapping operation, and keeps the other values |
| `Converter.RewriteOperationEffect` | src/slice_oas/converter.py:209-211 | a `parameters` list is replaced in place by a list of the same length, each parameter rewritten |
| `Converter.RewriteParameterListAt` | src/slice_oas/converter.py:209-211 | the parameter loop keeps the length, and its k-th result is the k-th parameter rewritten |
| `Converter.RewriteParameterEffect` | src/slice_oas/converter.py:210-211 | a mapping parameter holding `schema` gets that schema processed; any other parameter is kept |
| `Converter.SchemasTo30Frame` | src/slice_oas/converter.py:147-148 | the 3.1 → 3.0 schema rewrites touch only `components.schemas` and `paths` |
| `Converter.RemoveWebhooksEffect` | src/slice_oas/converter.py:151-153 | `webhooks` is deleted, the flag says whether it was there, every other key unchanged |
| `Converter.WebhooksStage` | src/slice_oas/converter.py:151-153 | removing webhooks keeps the security schemes and the license |
| `Converter.MutualTlsStage` | src/slice_oas/converter.py:155-157 | removing mutual TLS keeps webhooks out and the license as it was |
| `Converter.LicenseStage` | src/slice_oas/converter.py:159-161 | moving the license keeps webhooks out and the security schemes as they were |
| `Converter.SchemasTo30Keeps` | src/slice_oas/converter.py:146-148 | the schema rewrites keep webhooks, security schemes and license |
| `Converter.RemoveV31FeaturesEffect` | src/slice_oas/converter.py:150-169 | no webhooks, no mutual-TLS scheme; warnings in order webhooks, mutualTLS, license, conditionals (permissive); the conditionals error only in strict mode |
| `Converter.ConvertTo30Effects` | src/slice_oas/converter.py:141-171 | the document-level outcome of 3.1 → 3.0: no webhooks and no mutual-TLS scheme left, the warnings in source order and the strict-mode error; what the schemas become is `ConvertTo30Schemas` |
| `Converter.UntouchedKept` | src/slice_oas/converter.py:215-234 | a key that neither rewrite touches nor descends into keeps its value |
| `Converter.DiscriminatorKept` | src/slice_oas/converter.py:215-234 | processing a schema in either direction keeps its discriminator |
| `Converter.SchemasTo30Schemas` | src/slice_oas/converter.py:147-148 | each component schema comes out with its type list turned into `nullable` and then its discriminator `mapping` turned into `propertyName`; `paths` comes out with every operation-parameter schema processed, as `RewriteParameterSchemasEffect` describes; a document without component schemas still has none |
| `Converter.MutualTlsKeepsSchemas` | src/slice_oas/converter.py:283-292 | deleting mutual-TLS schemes keeps `paths` and the component schemas |
| `Converter.WebhooksKeepSchemas` | src/slice_oas/converter.py:151-152 | deleting `webhooks` keeps `paths` and the component schemas |
| `Converter.LicenseKeepsSchemas` | src/slice_oas/converter.py:294-305 | the license move keeps `paths` and the component schemas |
| `Converter.RemoveV31FeaturesKeepsSchemas` | src/slice_oas/converter.py:150-169 | removing the 3.1-only features keeps `paths` and the component schemas |
| `Converter.ConvertTo30Schemas` | src/slice_oas/converter.py:141-171 | after the whole 3.1 → 3.0 conversion, each component schema is the type-list rewrite followed by the `mapping` → `propertyName` rewrite of the input's, and `paths` satisfies `PathsRewritten` for the 3.1 → 3.0 direction |
| `Converter.ConvertTo30MappingFree` | src/slice_oas/converter.py:268-281 | after 3.1 → 3.0 on a parsed document, no component schema's discriminator holds `mapping` |
| `Converter.SchemaMappingFree` | src/slice_oas/converter.py:268-281 | a parsed schema rewritten for 3.0 and then stripped of its mapping holds no `mapping` in its discriminator |
| `Converter.ConvertTo31Effects` | src/slice_oas/converter.py:130-139 | 3.0 → 3.1 adds no warning or error and changes only `components` and `paths` |
| `Converter.ConvertTo31Schemas` | src/slice_oas/converter.py:130-139 | each component schema comes out processed and then given its discriminator mapping; `paths` comes out with every operation-parameter schema processed, as `RewriteParameterSchemasEffect` describes |
| `Converter.ConvertTo31NullableFree` | src/slice_oas/converter.py:130-139 | on a parsed document, no component schema and no operation-parameter schema of the 3.1 result holds `nullable: true` anywhere the walk reaches |
| `Converter.ConvertTo31ComponentsFree` | src/slice_oas/converter.py:130-139 | the component-schema half of the above |
| `Converter.ConvertTo31ParametersFree` | src/slice_oas/converter.py:130-139 | the operation-parameter half of the above |
| `Converter.ComponentWalkNullableFree` | src/slice_oas/converter.py:200-202 | after the component walk of 3.0 → 3.1, no component schema holds `nullable: true` |
| `Converter.DiscriminatorWalkNullableFree` | src/slice_oas/converter.py:250-268 | the discriminator walk keeps every component schema free of `nullable: true` |
| `Converter.DiscriminatorKeepsNullableFree` | src/slice_oas/converter.py:255-268 | adding a discriminator mapping keeps a schema free of `nullable: true` |
| `Converter.PutKeepsNullableFree` | src/slice_oas/converter.py:175-198 | setting a key the nullable walk neither reads nor descends into keeps a schema free of `nullable: true` |
| `Converter.PathsNullableFree` | src/slice_oas/converter.py:204-211 | after the 3.0 → 3.1 parameter walk, no operation-parameter schema holds `nullable: true` |
| `Converter.OperationNullableFree` | src/slice_oas/converter.py:208-211 | the same for the parameters of one operation |
| `Converter.ParameterNullableFree` | src/slice_oas/converter.py:210-211 | the same for one parameter |
| `Converter.Convert` | src/slice_oas/converter.py:46-128 | the method with its mutable warnings and errors lists returns exactly `Conversion` |
| `Converter.ConversionOutcome` | src/slice_oas/converter.py:46-128 | success iff a document is returned; success needs a supported direction and a matching source, and stamps "3.0.0"/"3.1.0"; the two early errors; strict success has no errors |
| `Converter.PermissiveSucceeds` | src/slice_oas/converter.py:83-119 | in permissive mode a supported, matching, non-raising conversion succeeds with the rewrite's warnings |
| `Converter.ConditionalsOutcome` | src/slice_oas/converter.py:163-169 | conditionals fail a strict 3.1 → 3.0 conversion with the one error, and end a permissive one's warnings |
| `Converter.SourceCheckWithinFamily` | src/slice_oas/converter.py:330-337 | an accepted source version is of the family; a bare `3.0`/`3.1` is refused |
| `Converter.ConvertVersionOutcome` | src/slice_oas/converter.py:357-370 | raises iff `openapi` is not a string; returns the document or the converted one; a same-family or foreign version returns the document |

## Left out

- Reading and parsing files (`parse_oas`), writing output files (`write_output_file`, `validate_output_dir`), the CSV manager, batch processing, the command-line interface, progress reporting and the exception message constants: I/O, threads and user interaction, none of which the engine's logic depends on.
- `VersionConverter._load_rules` and the converter's elapsed-time fields: a file read and the wall clock. `ConversionResult` has no timing field.
- `validate_converted_document` is not part of this model. src/slice_oas/converter.py:10 imports it from the validator module, but src/slice_oas/validator.py defines no function of that name, so as written importing the converter fails. The model follows the evidently intended call instead: `Converter.Convert` takes the function as a parameter returning error texts, and nothing is assumed about what it checks.
- Glob matching (`fnmatch`), regular-expression matching and `re.compile` are library calls. `Filters.Matchers` holds them as function parameters. The compiled regex is therefore not stored in `Filters.EndpointFilter`.
- Filters.Matches: states only the no-pattern case, because the glob and regex answers belong to the abstract matchers.
- The text of a caught exception (`str(e)`) is not modelled. A caught exception is the single error value `Caught` in the converter, and a fixed message in the validator.
- `lower()` and `upper()` are ASCII-only here. Non-ASCII case mapping is not modelled.
- Numbers are integers (`JNum(int)`), so a document holding a non-integer number is not representable. No modelled operation inspects a number, so this changes no result. For the same reason `file_size_kb` in `to_csv_row` is held as the text Python renders for the float.
- Keys are strings. YAML documents with non-string keys are not representable, so phase 3's non-string-code branch can never be taken in the model.
- The converter's in-place rewriting of the deep copy (assignment into nested dicts) is modelled on values. Each rewrite returns a new document. Aliasing inside the copy (one dict reachable twice) is not captured.
- `ResolvedComponents.has`, `get` and `total_count` are plain reads. They appear as the functions `Has`, `Get` and `TotalCount`, whose meaning the `Add` and `IsEmpty` contracts state. `ReferenceType`, the pydantic plumbing, `OASDocument`, `Resource`, `Reference`, `ResolvedComponent.collect_dependencies` and `VersionConverter.convert` in `models.py` are not modelled: they hold data only, are unused by the engine, or only copy the document.
- `_extract_schema_name` and the public `resolve_security_schemes` wrapper are not called by the modelled paths. Their effect is stated for the from-scratch case by `Resolver.SchemeStepsExact`.

Where the code and its documentation differ, the model follows the code:
- `sanitize_path` is documented as producing "alphanumeric + hyphens only", but it keeps every other character, such as `_` or `?`. The proved guarantee, `SafeName`, lists what is actually removed.
- Distinct paths can sanitise to the same name, for example `/a/b` and `/a.b`.
- `resolve_all_refs` is documented as following all transitive dependencies. But `_resolve_security_schemes` marks the schemes it collects by name as visited before the walk starts, and the walk skips visited slots. A `$ref` inside such a scheme is therefore never followed, even when the same scheme is also reached by `$ref`. `Resolver.ResolveAllSound` and `Resolver.ReachableResolved` state closure and reachability with exactly this exception. A scheme first reached by `$ref` is scanned like any other entry.
- `extract` copies only the `schemas` category and does not copy path-level parameters. The walk itself collects all eight categories.
- Phase 4 checks only `#/components/schemas/` refs under `paths`.
- Phases 5 and 6 always pass.
- Phase 7 and `detect_oas_version` accept a two-part version such as "3.0".
- `convert` rejects a bare "3.0" as a source, since it requires the prefix "3.0.".
- `convert_version` treats any version not starting with "3.0." as 3.1.x, so an unknown version comes back unchanged.

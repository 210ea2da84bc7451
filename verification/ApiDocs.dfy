/** The public projection of the OpenAPI document, over JSON values. */
module ApiDocs {
  import opened Common

  datatype Json =
    | Null
    | Boolean(b: bool)
    | Number(n: int)
    | Str(s: string)
    | Array(items: seq<Json>)
    | Object(fields: map<string, Json>)

  type Fields = map<string, Json>

  const SCHEMA_REF_PREFIX := "#/components/schemas/"

  const PUBLIC_PATHS: set<string> := {
    "/healthz", "/readyz", "/v1/contact/readyz", "/openapi.json", "/api/docs.json", "/api/docs", "/docs/api"
  }

  // ---- schema references

  function StripPrefix(reference: string): Option<string> {
    if SCHEMA_REF_PREFIX <= reference then Some(reference[|SCHEMA_REF_PREFIX|..]) else None
  }

  /** The name that the object's own $ref refers to, if it is a schema reference. */
  function OwnRef(fields: Fields): set<string> {
    if "$ref" in fields && fields["$ref"].Str? && StripPrefix(fields["$ref"].s).Some?
    then {StripPrefix(fields["$ref"].s).value} else {}
  }

  /** Every schema name referenced anywhere inside a value. */
  function SchemaRefs(value: Json): set<string> {
    match value
    case Object(fields) => OwnRef(fields) + set key, name | key in fields && name in SchemaRefs(fields[key]) :: name
    case Array(items) => set i, name | 0 <= i < |items| && name in SchemaRefs(items[i]) :: name
    case _ => {}
  }

  datatype Hop = Key(key: string) | Index(i: nat)

  /** The value found by following a path of keys and indexes. */
  function At(value: Json, path: seq<Hop>): Option<Json>
    decreases |path|
  {
    if path == [] then Some(value)
    else
      match (value, path[0])
      case (Object(fields), Key(key)) => if key in fields then At(fields[key], path[1..]) else None
      case (Array(items), Index(i)) => if i < |items| then At(items[i], path[1..]) else None
      case _ => None
  }

  /** The path leads to an object whose $ref names the schema. */
  predicate RefersAt(value: Json, path: seq<Hop>, name: string) {
    var target := At(value, path);
    target.Some? && target.value.Object? && "$ref" in target.value.fields
    && target.value.fields["$ref"] == Str(SCHEMA_REF_PREFIX + name)
  }

  lemma {:induction false} RefersAtIsFound(value: Json, path: seq<Hop>, name: string)
    requires RefersAt(value, path, name)
    ensures name in SchemaRefs(value)
    decreases |path|
  {
    if path == [] {
      assert (SCHEMA_REF_PREFIX + name)[|SCHEMA_REF_PREFIX|..] == name;
    } else {
      match value
      case Object(fields) => RefersAtIsFound(fields[path[0].key], path[1..], name);
      case Array(items) => RefersAtIsFound(items[path[0].i], path[1..], name);
      case _ =>
    }
  }

  lemma {:induction false} FoundRefersAt(value: Json, name: string) returns (path: seq<Hop>)
    requires name in SchemaRefs(value)
    ensures RefersAt(value, path, name)
    decreases value
  {
    match value
    case Object(fields) =>
      if name in OwnRef(fields) {
        path := [];
        assert fields["$ref"].s == SCHEMA_REF_PREFIX + name;
      } else {
        var key :| key in fields && name in SchemaRefs(fields[key]);
        var rest := FoundRefersAt(fields[key], name);
        path := [Key(key)] + rest;
        assert path[1..] == rest;
      }
    case Array(items) =>
      var i :| 0 <= i < |items| && name in SchemaRefs(items[i]);
      var rest := FoundRefersAt(items[i], name);
      path := [Index(i)] + rest;
      assert path[1..] == rest;
  }

  /** schema_refs finds a name exactly when some path leads to a reference to it. */
  lemma SchemaRefsAreExact(value: Json, name: string)
    ensures name in SchemaRefs(value) <==> exists path :: RefersAt(value, path, name)
  {
    if name in SchemaRefs(value) {
      var path := FoundRefersAt(value, name);
    }
    if path :| RefersAt(value, path, name) {
      RefersAtIsFound(value, path, name);
    }
  }

  // ---- the transitive closure

  function Successors(name: string, schemas: Fields): set<string> {
    if name in schemas then SchemaRefs(schemas[name]) else {}
  }

  function Discovered(names: set<string>, schemas: Fields): set<string> {
    set from, name | from in names && name in Successors(from, schemas) :: name
  }

  function TransitiveSchemaRefs(reached: set<string>, frontier: set<string>, schemas: Fields): set<string>
    requires reached !! frontier
    decreases |Discovered(schemas.Keys, schemas) + frontier - reached|
  {
    if frontier == {} then reached
    else
      var discovered := Discovered(frontier, schemas) - reached - frontier;
      ClosureDescends(reached, frontier, schemas);
      TransitiveSchemaRefs(reached + frontier, discovered, schemas)
  }

  lemma ClosureDescends(reached: set<string>, frontier: set<string>, schemas: Fields)
    requires reached !! frontier && frontier != {}
    ensures var discovered := Discovered(frontier, schemas) - reached - frontier;
      |Discovered(schemas.Keys, schemas) + discovered - (reached + frontier)|
        < |Discovered(schemas.Keys, schemas) + frontier - reached|
  {
    var universe := Discovered(schemas.Keys, schemas);
    DiscoveredInUniverse(frontier, schemas);
    hide Discovered;
    var discovered := Discovered(frontier, schemas) - reached - frontier;
    var name :| name in frontier;
    Smaller(universe + discovered - (reached + frontier), universe + frontier - reached, name);
  }

  lemma DiscoveredInUniverse(names: set<string>, schemas: Fields)
    ensures Discovered(names, schemas) <= Discovered(schemas.Keys, schemas)
  {
    hide SchemaRefs;
  }

  lemma {:induction false} Smaller<T>(a: set<T>, b: set<T>, x: T)
    requires a <= b && x in b && x !in a
    ensures |a| < |b|
    decreases a
  {
    if a != {} {
      var y :| y in a;
      Smaller(a - {y}, b - {y}, x);
    }
  }

  predicate Closed(names: set<string>, schemas: Fields) {
    forall name :: name in names ==> Successors(name, schemas) <= names
  }

  /** The recursion keeps: everything that `reached` leads to is in reached or frontier. So its result is the least closed superset. */
  lemma {:induction false} ClosureFrom(reached: set<string>, frontier: set<string>, schemas: Fields)
    requires reached !! frontier
    requires forall name :: name in reached ==> Successors(name, schemas) <= reached + frontier
    ensures reached + frontier <= TransitiveSchemaRefs(reached, frontier, schemas)
    ensures Closed(TransitiveSchemaRefs(reached, frontier, schemas), schemas)
    ensures forall s: set<string> ::
      (Closed(s, schemas) && reached + frontier <= s ==> TransitiveSchemaRefs(reached, frontier, schemas) <= s)
    decreases |Discovered(schemas.Keys, schemas) + frontier - reached|
  {
    if frontier != {} {
      var discovered := Discovered(frontier, schemas) - reached - frontier;
      ClosureDescends(reached, frontier, schemas);
      forall name | name in reached + frontier
        ensures Successors(name, schemas) <= reached + frontier + discovered
      {
        if name in frontier {
          assert Successors(name, schemas) <= Discovered(frontier, schemas);
        }
      }
      ClosureFrom(reached + frontier, discovered, schemas);
      forall s: set<string> | Closed(s, schemas) && reached + frontier <= s
        ensures TransitiveSchemaRefs(reached, frontier, schemas) <= s
      {
        assert Discovered(frontier, schemas) <= s;
      }
    }
  }

  /** A chain of references from a root to a name; every link but the last must have a schema. */
  predicate Chain(roots: set<string>, chain: seq<string>, name: string, schemas: Fields) {
    && chain != []
    && chain[0] in roots
    && chain[|chain| - 1] == name
    && forall k :: 0 < k < |chain| ==> chain[k] in Successors(chain[k - 1], schemas)
  }

  ghost predicate Reachable(roots: set<string>, name: string, schemas: Fields) {
    exists chain :: Chain(roots, chain, name, schemas)
  }

  lemma {:induction false} ChainStaysInside(roots: set<string>, chain: seq<string>, name: string, schemas: Fields, s: set<string>)
    requires Chain(roots, chain, name, schemas) && roots <= s && Closed(s, schemas)
    ensures name in s
  {
    if |chain| > 1 {
      ChainStaysInside(roots, chain[..|chain| - 1], chain[|chain| - 2], schemas, s);
    }
  }

  lemma ReachableExtends(roots: set<string>, name: string, schemas: Fields, next: string)
    requires Reachable(roots, name, schemas) && next in Successors(name, schemas)
    ensures Reachable(roots, next, schemas)
  {
    var chain :| Chain(roots, chain, name, schemas);
    assert Chain(roots, chain + [next], next, schemas);
  }

  /** For every schema graph, cyclic or dangling, the closure is exactly the set of names reachable from the roots. */
  lemma ClosureIsReachability(roots: set<string>, schemas: Fields, name: string)
    ensures name in TransitiveSchemaRefs({}, roots, schemas) <==> Reachable(roots, name, schemas)
  {
    ClosureFrom({}, roots, schemas);
    var result := TransitiveSchemaRefs({}, roots, schemas);
    if chain :| Chain(roots, chain, name, schemas) {
      ChainStaysInside(roots, chain, name, schemas, result);
    }
    var inner := ReachablePart(roots, result, schemas);
    forall root | root in roots
      ensures root in inner
    {
      assert Chain(roots, [root], root, schemas);
    }
    forall n, next | n in inner && next in Successors(n, schemas)
      ensures next in inner
    {
      ReachableExtends(roots, n, schemas, next);
    }
    assert Closed(inner, schemas);
    assert result <= inner;
  }

  ghost function ReachablePart(roots: set<string>, names: set<string>, schemas: Fields): set<string> {
    set n | n in names && Reachable(roots, n, schemas)
  }

  /** The closure from given roots is the least closed set that contains them. */
  lemma ClosureIsLeast(roots: set<string>, schemas: Fields, s: set<string>)
    ensures roots <= TransitiveSchemaRefs({}, roots, schemas)
    ensures Closed(TransitiveSchemaRefs({}, roots, schemas), schemas)
    ensures Closed(s, schemas) && roots <= s ==> TransitiveSchemaRefs({}, roots, schemas) <= s
  {
    ClosureFrom({}, roots, schemas);
  }

  predicate SchemasAgree(names: set<string>, schemas: Fields, schemas': Fields) {
    forall name :: name in names ==>
      (name in schemas <==> name in schemas') && (name in schemas ==> schemas[name] == schemas'[name])
  }

  /** Schemas that the closure does not reach have no influence on it. */
  lemma ClosureIgnoresTheRest(roots: set<string>, schemas: Fields, schemas': Fields)
    requires SchemasAgree(TransitiveSchemaRefs({}, roots, schemas), schemas, schemas')
    ensures TransitiveSchemaRefs({}, roots, schemas') == TransitiveSchemaRefs({}, roots, schemas)
  {
    var result, result' := TransitiveSchemaRefs({}, roots, schemas), TransitiveSchemaRefs({}, roots, schemas');
    ClosureIsLeast(roots, schemas, result');
    ClosureIsLeast(roots, schemas', result);
    assert Closed(result, schemas');
    assert Closed(result', schemas);
  }

  // ---- the public document

  /** Indexing a JSON value by a key that it does not have gives null. */
  function Field(value: Json, key: string): Json {
    if value.Object? && key in value.fields then value.fields[key] else Null
  }

  function PublicPaths(paths: Fields): Fields {
    map path | path in paths && path in PUBLIC_PATHS :: paths[path]
  }

  function AllSchemas(document: Json): Fields {
    var schemas := Field(Field(document, "components"), "schemas");
    if schemas.Object? then schemas.fields else map[]
  }

  function ReachableNames(paths: Fields, schemas: Fields): set<string> {
    TransitiveSchemaRefs({}, SchemaRefs(Object(paths)), schemas)
  }

  function ReachablePublicSchemas(paths: Fields, schemas: Fields): Fields {
    map name | name in ReachableNames(paths, schemas) && name in schemas :: schemas[name]
  }

  function PublicInfo(info: Fields): Fields {
    (map key | key in info && key !in {"title", "contact", "license"} :: info[key])
      + map["title" := Str("push-notification-server API (public)")]
  }

  function Carried(fields: Fields): Fields {
    map key | key in fields && key !in {"paths", "components", "info", "x-dd-contract-scope"} :: fields[key]
  }

  function Assemble(carried: Fields, paths: Fields, schemas: Fields, info: Fields): Json {
    Object(carried + map[
      "paths" := Object(paths),
      "components" := Object(map["schemas" := Object(schemas)]),
      "info" := Object(info),
      "x-dd-contract-scope" := Str("public")])
  }

  /** What an OpenAPI document serializes to; the projection panics on anything else. */
  predicate WellShaped(document: Json) {
    document.Object? && Field(document, "paths").Object? && Field(document, "info").Object?
  }

  function PublicPathsOf(document: Json): Fields
    requires WellShaped(document)
  {
    PublicPaths(Field(document, "paths").fields)
  }

  function PublicProjection(document: Json): Json
    requires WellShaped(document)
  {
    var paths := PublicPathsOf(document);
    Assemble(Carried(document.fields), paths, ReachablePublicSchemas(paths, AllSchemas(document)),
      PublicInfo(Field(document, "info").fields))
  }

  lemma AssembledParts(carried: Fields, paths: Fields, schemas: Fields, info: Fields)
    requires {"paths", "components", "info", "x-dd-contract-scope"} !! carried.Keys
    ensures var p := Assemble(carried, paths, schemas, info);
      && p.fields.Keys == carried.Keys + {"paths", "components", "info", "x-dd-contract-scope"}
      && (forall key :: key in carried ==> p.fields[key] == carried[key])
      && Field(p, "paths") == Object(paths)
      && Field(p, "components") == Object(map["schemas" := Object(schemas)])
      && Field(p, "info") == Object(info)
      && Field(p, "x-dd-contract-scope") == Str("public")
  {
    hide SchemaRefs;
    assert |"paths"| == 5 && |"components"| == 10 && |"info"| == 4 && |"x-dd-contract-scope"| == 19;
  }

  lemma CarriedAgain(carried: Fields, fields: Fields)
    requires {"paths", "components", "info", "x-dd-contract-scope"} !! carried.Keys
    requires fields.Keys == carried.Keys + {"paths", "components", "info", "x-dd-contract-scope"}
    requires forall key :: key in carried ==> fields[key] == carried[key]
    ensures Carried(fields) == carried
  {
    assert Carried(fields).Keys == carried.Keys;
  }

  lemma FilteredAgain(paths: Fields, info: Fields)
    ensures PublicPaths(PublicPaths(paths)) == PublicPaths(paths)
    ensures PublicInfo(PublicInfo(info)) == PublicInfo(info)
  {
  }

  lemma ProjectionParts(document: Json)
    requires WellShaped(document)
    ensures WellShaped(PublicProjection(document))
    ensures PublicPathsOf(PublicProjection(document)) == PublicPathsOf(document)
    ensures AllSchemas(PublicProjection(document))
         == ReachablePublicSchemas(PublicPathsOf(document), AllSchemas(document))
    ensures Carried(PublicProjection(document).fields) == Carried(document.fields)
    ensures Field(PublicProjection(document), "info") == Object(PublicInfo(Field(document, "info").fields))
    ensures PublicInfo(Field(PublicProjection(document), "info").fields) == PublicInfo(Field(document, "info").fields)
  {
    hide PublicPaths, PublicInfo, Carried, ReachablePublicSchemas, Assemble;
    var paths := Field(document, "paths").fields;
    var info := Field(document, "info").fields;
    var carried := Carried(document.fields);
    var schemas := ReachablePublicSchemas(PublicPaths(paths), AllSchemas(document));
    CarriedKeys(document.fields);
    AssembledParts(carried, PublicPaths(paths), schemas, PublicInfo(info));
    CarriedAgain(carried, PublicProjection(document).fields);
    FilteredAgain(paths, info);
    assert map["schemas" := Object(schemas)]["schemas"] == Object(schemas);
  }

  lemma CarriedKeys(fields: Fields)
    ensures {"paths", "components", "info", "x-dd-contract-scope"} !! Carried(fields).Keys
  {
  }

  /** A schema is published exactly when it exists and some public path reaches it, and then unchanged. */
  lemma ProjectionIsMinimal(document: Json, name: string)
    requires WellShaped(document)
    ensures name in AllSchemas(PublicProjection(document)) <==>
      && name in AllSchemas(document)
      && Reachable(SchemaRefs(Object(PublicPathsOf(document))), name, AllSchemas(document))
    ensures name in AllSchemas(PublicProjection(document)) ==>
      AllSchemas(PublicProjection(document))[name] == AllSchemas(document)[name]
  {
    ProjectionParts(document);
    ClosureIsReachability(SchemaRefs(Object(PublicPathsOf(document))), AllSchemas(document), name);
  }

  /** A private path never appears, a public one appears unchanged, and nothing but schemas is published as a component. */
  lemma ProjectionFailsClosed(document: Json, path: string)
    requires WellShaped(document)
    ensures var p := PublicProjection(document);
      var internal, published := Field(document, "paths").fields, Field(p, "paths").fields;
      && (path in published <==> path in internal && path in PUBLIC_PATHS)
      && (path in published ==> published[path] == internal[path])
      && "/v1/push/jobs" !in published && "/v1/contact/jobs" !in published
      && Field(p, "components").fields.Keys == {"schemas"}
      && Field(p, "x-dd-contract-scope") == Str("public")
      && Field(Field(p, "info"), "contact") == Field(Field(p, "info"), "license") == Null
  {
    hide SchemaRefs, TransitiveSchemaRefs, ReachablePublicSchemas;
    CarriedKeys(document.fields);
    AssembledParts(Carried(document.fields), PublicPathsOf(document),
      ReachablePublicSchemas(PublicPathsOf(document), AllSchemas(document)), PublicInfo(Field(document, "info").fields));
    assert |"title"| == 5 && |"contact"| == 7 && "contact"[0] == 'c' && "license"[0] == 'l';
  }

  /** Whatever is neither a path nor a component is published as it is, but for the title, contact, licence and scope. */
  lemma ProjectionKeepsTheRest(document: Json, key: string)
    requires WellShaped(document)
    ensures var p := PublicProjection(document);
      && p.Object?
      && (key !in {"paths", "components", "info", "x-dd-contract-scope"} ==>
            (key in p.fields <==> key in document.fields) && (key in p.fields ==> p.fields[key] == document.fields[key]))
    ensures var internal, published := Field(document, "info").fields, Field(PublicProjection(document), "info");
      && published.Object?
      && Field(published, "title") == Str("push-notification-server API (public)")
      && (key !in {"title", "contact", "license"} ==>
            (key in published.fields <==> key in internal) && (key in internal ==> published.fields[key] == internal[key]))
  {
    hide SchemaRefs, TransitiveSchemaRefs, ReachablePublicSchemas;
    CarriedKeys(document.fields);
    AssembledParts(Carried(document.fields), PublicPathsOf(document),
      ReachablePublicSchemas(PublicPathsOf(document), AllSchemas(document)), PublicInfo(Field(document, "info").fields));
  }

  /** The names referenced by a published path or a published schema. */
  function PublishedRefs(document: Json): set<string>
    requires WellShaped(document)
  {
    SchemaRefs(Object(PublicPathsOf(document))) + Discovered(AllSchemas(document).Keys, AllSchemas(document))
  }

  /** Every reference in a published path or schema that resolved internally still resolves. */
  lemma ProjectionIsClosed(document: Json, name: string)
    requires WellShaped(document)
    requires name in PublishedRefs(PublicProjection(document)) && name in AllSchemas(document)
    ensures name in AllSchemas(PublicProjection(document))
  {
    ProjectionParts(document);
    var paths, schemas := PublicPathsOf(document), AllSchemas(document);
    ClosureIsLeast(SchemaRefs(Object(paths)), schemas, {});
    assert forall n :: n in AllSchemas(PublicProjection(document)) ==>
      Successors(n, AllSchemas(PublicProjection(document))) == Successors(n, schemas);
  }

  /** Documents with the same public paths, the same carried fields and the same reachable schemas look the same in public. */
  lemma ProjectionIsNonInterfering(document: Json, document': Json)
    requires WellShaped(document) && WellShaped(document')
    requires PublicPathsOf(document') == PublicPathsOf(document)
    requires Carried(document'.fields) == Carried(document.fields)
    requires PublicInfo(Field(document', "info").fields) == PublicInfo(Field(document, "info").fields)
    requires SchemasAgree(ReachableNames(PublicPathsOf(document), AllSchemas(document)),
      AllSchemas(document), AllSchemas(document'))
    ensures PublicProjection(document') == PublicProjection(document)
  {
    ClosureIgnoresTheRest(SchemaRefs(Object(PublicPathsOf(document))), AllSchemas(document), AllSchemas(document'));
    assert ReachablePublicSchemas(PublicPathsOf(document), AllSchemas(document'))
        == ReachablePublicSchemas(PublicPathsOf(document), AllSchemas(document));
  }

  /** Projecting twice is projecting once. */
  lemma ProjectionIsIdempotent(document: Json)
    requires WellShaped(document)
    ensures WellShaped(PublicProjection(document))
    ensures PublicProjection(PublicProjection(document)) == PublicProjection(document)
  {
    ProjectionParts(document);
    ProjectionIsNonInterfering(document, PublicProjection(document));
  }

  // ---- references outside paths and schemas

  lemma RefsWithoutKey(fields: Fields, key: string)
    requires key in fields && key != "$ref"
    ensures SchemaRefs(Object(fields)) == SchemaRefs(Object(fields - {key})) + SchemaRefs(fields[key])
  {
    var rest := fields - {key};
    assert OwnRef(rest) == OwnRef(fields);
    forall name | name in SchemaRefs(Object(fields)) && name !in OwnRef(fields)
      ensures name in SchemaRefs(Object(rest)) + SchemaRefs(fields[key])
    {
      var k :| k in fields && name in SchemaRefs(fields[k]);
      assert k != key ==> k in rest && rest[k] == fields[k];
    }
    forall name | name in SchemaRefs(Object(rest)) && name !in OwnRef(rest)
      ensures name in SchemaRefs(Object(fields))
    {
      var k :| k in rest && name in SchemaRefs(rest[k]);
      assert k in fields && rest[k] == fields[k];
    }
  }

  lemma RefsOfComponents(schemas: Fields)
    ensures SchemaRefs(Object(map["schemas" := Object(schemas)])) == OwnRef(schemas) + Discovered(schemas.Keys, schemas)
  {
    var components := map["schemas" := Object(schemas)];
    RefsWithoutKey(components, "schemas");
    assert components - {"schemas"} == map[];
    assert SchemaRefs(Object(map[])) == {};
    forall name | name in SchemaRefs(Object(schemas)) && name !in OwnRef(schemas)
      ensures name in Discovered(schemas.Keys, schemas)
    {
      var key :| key in schemas && name in SchemaRefs(schemas[key]);
      assert key in schemas.Keys && name in Successors(key, schemas);
    }
  }

  /** The references of an assembled document, part by part. */
  lemma RefsOfAssembled(carried: Fields, paths: Fields, schemas: Fields, info: Fields)
    requires {"paths", "components", "info", "x-dd-contract-scope"} !! carried.Keys
    ensures SchemaRefs(Assemble(carried, paths, schemas, info))
         == SchemaRefs(Object(carried)) + SchemaRefs(Object(info)) + OwnRef(schemas)
            + SchemaRefs(Object(paths)) + Discovered(schemas.Keys, schemas)
  {
    hide Assemble, SchemaRefs, Discovered, OwnRef;
    var p := Assemble(carried, paths, schemas, info);
    AssembledParts(carried, paths, schemas, info);
    var noPaths := p.fields - {"paths"};
    var noComponents := noPaths - {"components"};
    var noInfo := noComponents - {"info"};
    RefsWithoutKey(p.fields, "paths");
    RefsWithoutKey(noPaths, "components");
    RefsWithoutKey(noComponents, "info");
    RefsWithoutKey(noInfo, "x-dd-contract-scope");
    assert noInfo - {"x-dd-contract-scope"} == carried;
    RefsOfComponents(schemas);
    NoRefsInStrings("public");
  }

  lemma NoRefsInStrings(s: string)
    ensures SchemaRefs(Str(s)) == {}
  {
  }

  /** The references that the published fields outside paths and schemas hold, read from the internal document. */
  function UnprojectedRefs(document: Json): set<string>
    requires WellShaped(document)
  {
    SchemaRefs(Object(Carried(document.fields)))
    + SchemaRefs(Object(PublicInfo(Field(document, "info").fields)))
    // a schema that is named like a reference and is a string is read as one
    + if "$ref" in ReachableNames(PublicPathsOf(document), AllSchemas(document)) then OwnRef(AllSchemas(document)) else {}
  }

  lemma OwnRefOfPublished(document: Json)
    requires WellShaped(document)
    ensures OwnRef(AllSchemas(PublicProjection(document)))
         == if "$ref" in ReachableNames(PublicPathsOf(document), AllSchemas(document)) then OwnRef(AllSchemas(document)) else {}
  {
    ProjectionParts(document);
  }

  /**
   * The whole public document is closed exactly when what it keeps outside the projected paths and schemas mentions
   * no existing schema that the public paths do not reach: the closure starts from the paths only.
   */
  lemma WholeDocumentClosedExactly(document: Json)
    requires WellShaped(document)
    ensures var p := PublicProjection(document);
      (forall name :: name in SchemaRefs(p) && name in AllSchemas(document) ==> name in AllSchemas(p)) <==>
      forall name :: name in UnprojectedRefs(document) && name in AllSchemas(document)
        ==> name in ReachableNames(PublicPathsOf(document), AllSchemas(document))
  {
    ProjectionParts(document);
    OwnRefOfPublished(document);
    CarriedKeys(document.fields);
    var p := PublicProjection(document);
    RefsOfAssembled(Carried(document.fields), PublicPathsOf(document), AllSchemas(p),
      PublicInfo(Field(document, "info").fields));
    forall name | name in PublishedRefs(p) && name in AllSchemas(document)
      ensures name in AllSchemas(p)
    {
      ProjectionIsClosed(document, name);
    }
  }

  const EVENT_REF := Object(map["$ref" := Str(SCHEMA_REF_PREFIX + "Event")])
  const EVENT_SCHEMAS := map["Event" := Object(map["type" := Str("object")])]

  /** A finalized document whose one schema is mentioned in an extension field only. */
  function ExtendedDocument(): Json {
    Object(map[
      "openapi" := Str("3.1.0"),
      "info" := Object(map["title" := Str("push-notification-server API"), "version" := Str("1.0.0")]),
      "paths" := Object(map[]),
      "components" := Object(map["schemas" := Object(EVENT_SCHEMAS)]),
      "x-dd-contract-scope" := Str("internal"),
      "x-events" := EVENT_REF])
  }

  lemma ExtendedDocumentShape()
    ensures WellShaped(ExtendedDocument()) && PublicPathsOf(ExtendedDocument()) == map[]
    ensures AllSchemas(ExtendedDocument()) == EVENT_SCHEMAS
  {
    hide SchemaRefs;
    var document := ExtendedDocument();
    assert |"info"| == 4 && |"paths"| == 5 && |"components"| == 10 && |"x-dd-contract-scope"| == 19 && |"x-events"| == 8;
    assert Field(document, "components") == Object(map["schemas" := Object(EVENT_SCHEMAS)]);
    assert Field(document, "paths") == Object(map[]) && Field(document, "info").Object?;
  }

  lemma ExtendedDocumentCarries()
    ensures ExtendedDocument().Object?
    ensures Carried(ExtendedDocument().fields) == map["openapi" := Str("3.1.0"), "x-events" := EVENT_REF]
  {
    hide SchemaRefs;
    assert |"openapi"| == 7 && |"info"| == 4 && |"paths"| == 5 && |"components"| == 10;
    assert |"x-dd-contract-scope"| == 19 && |"x-events"| == 8;
  }

  lemma NoRefsInEmpty()
    ensures SchemaRefs(Object(map[])) == {}
  {
  }

  /** There the reference is carried into the public document, and the schema is not. */
  lemma CarriedReferenceCanDangle()
    ensures WellShaped(ExtendedDocument()) && "Event" in AllSchemas(ExtendedDocument())
    ensures var p := PublicProjection(ExtendedDocument());
      "Event" in SchemaRefs(p) && "Event" !in AllSchemas(p)
  {
    hide SchemaRefs, TransitiveSchemaRefs, AllSchemas, Carried, PublicInfo, ExtendedDocument;
    var document := ExtendedDocument();
    ExtendedDocumentShape();
    ExtendedDocumentCarries();
    ProjectionParts(document);
    var p := PublicProjection(document);
    CarriedKeys(document.fields);
    RefsOfAssembled(Carried(document.fields), PublicPathsOf(document), AllSchemas(p), PublicInfo(Field(document, "info").fields));
    assert [Key("x-events")][1..] == [];
    assert RefersAt(Object(Carried(document.fields)), [Key("x-events")], "Event");
    RefersAtIsFound(Object(Carried(document.fields)), [Key("x-events")], "Event");
    NoRefsInEmpty();
    ClosureIsLeast({}, AllSchemas(document), {});
  }
}

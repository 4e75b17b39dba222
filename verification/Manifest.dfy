/** The tool manifest v3 (go/toolspec/toolspec.go, manifest_v3.go) at the level of JSON
    values: what MarshalManifestV3 writes and what parseManifestV3 accepts. */
module Manifest {
  import opened Options
  import opened Sorting

  datatype Json =
    | JNull
    | JBool(b: bool)
    | JNumber(literal: string)
    | JString(s: string)
    | JArray(items: seq<Json>)
    | JObject(fields: map<string, Json>)

  datatype Code =
    | InvalidType | UnsupportedSchema | UnknownField | MissingField
    | InvalidOperationClass | InvalidRoute | DuplicateToolName

  datatype PathPart = Key(name: string) | Index(i: nat)

  datatype ManifestError = ManifestError(code: Code, path: seq<PathPart>)

  datatype Result<T> = Ok(value: T) | Err(error: ManifestError) {
    predicate IsFailure() { Err? }
    function PropagateFailure<U>(): Result<U> requires Err? { Err(error) }
    function Extract(): T requires Ok? { value }
  }

  datatype HarnessExecutor = HarnessExecutor(executor: string, registration: string)
  datatype ConnectorBinding = ConnectorBinding(agentID: string, connectorID: string)
  datatype Route = Route(harness: Option<HarnessExecutor>, connector: Option<ConnectorBinding>)
  datatype ResourceType = ResourceType(typ: string, parentType: string)

  datatype ToolSpec = ToolSpec(name: string, description: string, parameters: map<string, Json>, service: string,
                               source: string, operationClass: string, route: Option<Route>,
                               requiredCapabilities: seq<string>, resourceTypes: seq<ResourceType>,
                               enabled: Option<bool>)

  const Schema := "kei.tool-manifest/v3"

  // ---- Marshalling ----

  /** What toWire accepts. */
  predicate Marshals(spec: ToolSpec) {
    && spec.name != "" && spec.description != "" && spec.service != "" && spec.source != ""
    && (spec.operationClass == "read" || spec.operationClass == "write")
    && spec.route.Some? && RouteMarshals(spec.route.value, spec.requiredCapabilities, spec.resourceTypes)
  }

  predicate RouteMarshals(route: Route, caps: seq<string>, types: seq<ResourceType>) {
    && route.harness.Some? == route.connector.None?
    && (route.harness.Some? ==>
          && route.harness.value.executor != "" && route.harness.value.registration != ""
          && caps == [] && types == [])
    && (route.connector.Some? ==>
          route.connector.value.agentID != "" && route.connector.value.connectorID != "" && caps != [])
  }

  function HarnessJson(h: HarnessExecutor): Json {
    JObject(map["executor" := JString(h.executor), "registration" := JString(h.registration)])
  }

  function ConnectorJson(c: ConnectorBinding): Json {
    JObject(map["agent_id" := JString(c.agentID), "connector_id" := JString(c.connectorID)])
  }

  function RouteJson(r: Route): Json {
    var h: map<string, Json> :=
      if r.harness.Some? then map["harness_executor" := HarnessJson(r.harness.value)] else map[];
    var c: map<string, Json> :=
      if r.connector.Some? then map["connector_binding" := ConnectorJson(r.connector.value)] else map[];
    JObject(h + c)
  }

  function StringsJson(strings: seq<string>): seq<Json> {
    seq(|strings|, i requires 0 <= i < |strings| => JString(strings[i]))
  }

  function ResourceJson(r: ResourceType): Json {
    if r.parentType == "" then JObject(map["type" := JString(r.typ)])
    else JObject(map["type" := JString(r.typ), "parent_type" := JString(r.parentType)])
  }

  function ResourcesJson(types: seq<ResourceType>): seq<Json> {
    seq(|types|, i requires 0 <= i < |types| => ResourceJson(types[i]))
  }

  /** The fields of one tool; parameters are never written. */
  function ToolFields(spec: ToolSpec): map<string, Json>
    requires spec.route.Some?
  {
    var caps: map<string, Json> :=
      if spec.requiredCapabilities == [] then map[]
      else map["required_capabilities" := JArray(StringsJson(spec.requiredCapabilities))];
    var types: map<string, Json> :=
      if spec.resourceTypes == [] then map[] else map["resource_types" := JArray(ResourcesJson(spec.resourceTypes))];
    map["name" := JString(spec.name), "service" := JString(spec.service), "source" := JString(spec.source),
        "operation_class" := JString(spec.operationClass), "route" := RouteJson(spec.route.value),
        "description" := JString(spec.description),
        "enabled" := JBool(spec.enabled.None? || spec.enabled.value)] + caps + types
  }

  function ToolsJson(specs: seq<ToolSpec>): seq<Json>
    requires forall i :: 0 <= i < |specs| ==> Marshals(specs[i])
  {
    seq(|specs|, i requires 0 <= i < |specs| && Marshals(specs[i]) => JObject(ToolFields(specs[i])))
  }

  function ManifestJson(specs: seq<ToolSpec>): Json
    requires forall i :: 0 <= i < |specs| ==> Marshals(specs[i])
  {
    JObject(map["schema" := JString(Schema), "tools" := JArray(ToolsJson(specs))])
  }

  /** The first spec that cannot be written stops the marshalling. */
  method MarshalManifest(specs: seq<ToolSpec>) returns (r: Option<Json>)
    ensures r.Some? <==> forall i :: 0 <= i < |specs| ==> Marshals(specs[i])
    ensures r.Some? ==> r.value == ManifestJson(specs)
  {
    var tools: seq<Json> := [];
    for i := 0 to |specs|
      invariant forall k :: 0 <= k < i ==> Marshals(specs[k])
      invariant |tools| == i && forall k :: 0 <= k < i ==> tools[k] == JObject(ToolFields(specs[k]))
    {
      if !Marshals(specs[i]) { return None; }
      tools := tools + [JObject(ToolFields(specs[i]))];
    }
    assert tools == ToolsJson(specs);
    return Some(JObject(map["schema" := JString(Schema), "tools" := JArray(tools)]));
  }

  // ---- Strict decoding ----

  datatype WireHarness = WireHarness(executor: Option<string>, registration: Option<string>)
  datatype WireConnector = WireConnector(agentID: Option<string>, connectorID: Option<string>)
  datatype WireRoute = WireRoute(harness: Option<WireHarness>, connector: Option<WireConnector>)
  datatype WireResource = WireResource(typ: Option<string>, parentType: Option<string>)
  datatype WireTool = WireTool(name: Option<string>, description: Option<string>, service: Option<string>,
                               source: Option<string>, operationClass: Option<string>, route: Option<WireRoute>,
                               requiredCapabilities: Option<seq<string>>, resourceTypes: Option<seq<WireResource>>,
                               parameters: Option<map<string, Json>>, enabled: Option<bool>)

  type Path = seq<PathPart>

  predicate OnlyFields(obj: map<string, Json>, allowed: set<string>) {
    obj.Keys <= allowed
  }

  predicate IsFirst(key: string, keys: set<string>) {
    key in keys && forall other :: other in keys ==> other == key || StringLess(key, other)
  }

  lemma FirstExists(keys: set<string>)
    requires keys != {}
    ensures exists key :: IsFirst(key, keys)
  {
    StringLessStrictTotal();
    var a := Ascending(keys, StringLess);
    AscendingIncreasing(keys, StringLess);
    assert forall x :: x in a <==> x in Elements(a);
    var some :| some in keys;
    assert some in a;
    assert IsFirst(a[0], keys);
  }

  lemma FirstUnique(a: string, b: string, keys: set<string>)
    requires IsFirst(a, keys) && IsFirst(b, keys)
    ensures a == b
  {
    StringLessIrreflexive(a);
    if a != b { StringLessTransitive(a, b, a); }
  }

  /** The first unknown key in alphabetical order is the one reported. */
  function UnknownAt<T>(obj: map<string, Json>, allowed: set<string>, path: Path): (r: Result<T>)
    requires !OnlyFields(obj, allowed)
    ensures r.Err? && r.error.code == UnknownField
    ensures exists key :: IsFirst(key, obj.Keys - allowed) && r.error.path == path + [Key(key)]
  {
    var unknown := obj.Keys - allowed;
    assert forall k :: k in obj.Keys ==> k in allowed || k in unknown;
    FirstExists(unknown);
    assert forall a, b :: IsFirst(a, unknown) && IsFirst(b, unknown) ==> a == b by {
      forall a, b | IsFirst(a, unknown) && IsFirst(b, unknown) ensures a == b { FirstUnique(a, b, unknown); }
    }
    var key :| IsFirst(key, unknown);
    Err(ManifestError(UnknownField, path + [Key(key)]))
  }

  function StringField(obj: map<string, Json>, key: string, path: Path): Result<Option<string>> {
    if key !in obj then Ok(None)
    else if obj[key].JString? then Ok(Some(obj[key].s))
    else Err(ManifestError(InvalidType, path + [Key(key)]))
  }

  function DecodeHarness(raw: Json, path: Path): Result<WireHarness> {
    if !raw.JObject? then Err(ManifestError(InvalidType, path))
    else if !OnlyFields(raw.fields, {"executor", "registration"})
    then UnknownAt(raw.fields, {"executor", "registration"}, path)
    else
      var executor :- StringField(raw.fields, "executor", path);
      var registration :- StringField(raw.fields, "registration", path);
      Ok(WireHarness(executor, registration))
  }

  function DecodeConnector(raw: Json, path: Path): Result<WireConnector> {
    if !raw.JObject? then Err(ManifestError(InvalidType, path))
    else if !OnlyFields(raw.fields, {"agent_id", "connector_id"})
    then UnknownAt(raw.fields, {"agent_id", "connector_id"}, path)
    else
      var agentID :- StringField(raw.fields, "agent_id", path);
      var connectorID :- StringField(raw.fields, "connector_id", path);
      Ok(WireConnector(agentID, connectorID))
  }

  function DecodeRoute(raw: Json, path: Path): Result<WireRoute> {
    if !raw.JObject? then Err(ManifestError(InvalidType, path))
    else if !OnlyFields(raw.fields, {"harness_executor", "connector_binding"})
    then UnknownAt(raw.fields, {"harness_executor", "connector_binding"}, path)
    else
      var harness: Option<WireHarness> :-
        if "harness_executor" !in raw.fields then Ok(None)
        else Wrap(DecodeHarness(raw.fields["harness_executor"], path + [Key("harness_executor")]));
      var connector: Option<WireConnector> :-
        if "connector_binding" !in raw.fields then Ok(None)
        else Wrap(DecodeConnector(raw.fields["connector_binding"], path + [Key("connector_binding")]));
      Ok(WireRoute(harness, connector))
  }

  function Wrap<T>(r: Result<T>): Result<Option<T>> {
    if r.Ok? then Ok(Some(r.value)) else Err(r.error)
  }

  /** The elements up to the first that is not a string. */
  function DecodeStrings(items: seq<Json>, path: Path): Result<seq<string>> {
    if items == [] then Ok([])
    else
      var n := |items| - 1;
      var rest :- DecodeStrings(items[..n], path);
      if items[n].JString? then Ok(rest + [items[n].s]) else Err(ManifestError(InvalidType, path + [Index(n)]))
  }

  function DecodeResource(raw: Json, path: Path): Result<WireResource> {
    if !raw.JObject? then Err(ManifestError(InvalidType, path))
    else if !OnlyFields(raw.fields, {"type", "parent_type"}) then UnknownAt(raw.fields, {"type", "parent_type"}, path)
    else
      var typ :- StringField(raw.fields, "type", path);
      var parentType :- StringField(raw.fields, "parent_type", path);
      Ok(WireResource(typ, parentType))
  }

  function DecodeResources(items: seq<Json>, path: Path): Result<seq<WireResource>> {
    if items == [] then Ok([])
    else
      var n := |items| - 1;
      var rest :- DecodeResources(items[..n], path);
      var r :- DecodeResource(items[n], path + [Index(n)]);
      Ok(rest + [r])
  }

  function CapabilitiesField(obj: map<string, Json>, path: Path): Result<Option<seq<string>>> {
    var key := "required_capabilities";
    if key !in obj then Ok(None)
    else if !obj[key].JArray? then Err(ManifestError(InvalidType, path + [Key(key)]))
    else Wrap(DecodeStrings(obj[key].items, path + [Key(key)]))
  }

  function ResourcesField(obj: map<string, Json>, path: Path): Result<Option<seq<WireResource>>> {
    var key := "resource_types";
    if key !in obj then Ok(None)
    else if !obj[key].JArray? then Err(ManifestError(InvalidType, path + [Key(key)]))
    else Wrap(DecodeResources(obj[key].items, path + [Key(key)]))
  }

  function RouteField(obj: map<string, Json>, path: Path): Result<Option<WireRoute>> {
    if "route" !in obj then Ok(None) else Wrap(DecodeRoute(obj["route"], path + [Key("route")]))
  }

  function ParametersField(obj: map<string, Json>, path: Path): Result<Option<map<string, Json>>> {
    if "parameters" !in obj then Ok(None)
    else if obj["parameters"].JObject? then Ok(Some(obj["parameters"].fields))
    else Err(ManifestError(InvalidType, path + [Key("parameters")]))
  }

  /** A null is read as false: the decoder leaves the flag at its zero value. */
  function EnabledField(obj: map<string, Json>, path: Path): Result<Option<bool>> {
    if "enabled" !in obj then Ok(None)
    else
      match obj["enabled"]
      case JBool(b) => Ok(Some(b))
      case JNull => Ok(Some(false))
      case _ => Err(ManifestError(InvalidType, path + [Key("enabled")]))
  }

  const ToolFieldNames: set<string> :=
    {"name", "description", "service", "source", "operation_class", "route", "required_capabilities",
     "resource_types", "parameters", "enabled"}

  function DecodeTool(raw: Json, path: Path): Result<WireTool> {
    if !raw.JObject? then Err(ManifestError(InvalidType, path))
    else if !OnlyFields(raw.fields, ToolFieldNames) then UnknownAt(raw.fields, ToolFieldNames, path)
    else
      var obj := raw.fields;
      var name :- StringField(obj, "name", path);
      var description :- StringField(obj, "description", path);
      var service :- StringField(obj, "service", path);
      var source :- StringField(obj, "source", path);
      var operationClass :- StringField(obj, "operation_class", path);
      var route :- RouteField(obj, path);
      var caps :- CapabilitiesField(obj, path);
      var types :- ResourcesField(obj, path);
      var parameters :- ParametersField(obj, path);
      var enabled :- EnabledField(obj, path);
      Ok(WireTool(name, description, service, source, operationClass, route, caps, types, parameters, enabled))
  }

  // ---- Validation ----

  predicate Given(s: Option<string>) {
    s.Some? && s.value != ""
  }

  function Need(s: Option<string>, key: string, path: Path): Result<string> {
    if Given(s) then Ok(s.value) else Err(ManifestError(MissingField, path + [Key(key)]))
  }

  function ValidateRoute(wire: WireRoute, path: Path): Result<Route> {
    if wire.harness.Some? && !(Given(wire.harness.value.executor) && Given(wire.harness.value.registration))
    then Err(ManifestError(InvalidRoute, path + [Key("harness_executor")]))
    else if wire.connector.Some? && !(Given(wire.connector.value.agentID) && Given(wire.connector.value.connectorID))
    then Err(ManifestError(InvalidRoute, path + [Key("connector_binding")]))
    else if wire.harness.Some? == wire.connector.Some? then Err(ManifestError(InvalidRoute, path))
    else if wire.harness.Some?
    then
      var h := wire.harness.value;
      Ok(Route(Some(HarnessExecutor(h.executor.value, h.registration.value)), None))
    else
      var c := wire.connector.value;
      Ok(Route(None, Some(ConnectorBinding(c.agentID.value, c.connectorID.value))))
  }

  /** The connector-only fields: forbidden on a harness route, even when empty; on a
      connector route capabilities are required and resource types may not be empty. */
  function ValidateLists(route: Route, tool: WireTool, path: Path): Result<bool> {
    if route.harness.Some? then
      if tool.requiredCapabilities.Some? then Err(ManifestError(InvalidRoute, path + [Key("required_capabilities")]))
      else if tool.resourceTypes.Some? then Err(ManifestError(InvalidRoute, path + [Key("resource_types")]))
      else Ok(true)
    else
      if tool.requiredCapabilities.None? || tool.requiredCapabilities.value == []
      then Err(ManifestError(InvalidRoute, path + [Key("required_capabilities")]))
      else if tool.resourceTypes.Some? && tool.resourceTypes.value == []
      then Err(ManifestError(InvalidRoute, path + [Key("resource_types")]))
      else Ok(true)
  }

  function ValidateResources(types: seq<WireResource>, path: Path): Result<seq<ResourceType>> {
    if types == [] then Ok([])
    else
      var n := |types| - 1;
      var rest :- ValidateResources(types[..n], path);
      var parent := types[n].parentType;
      if !Given(types[n].typ)
      then Err(ManifestError(MissingField, path + [Key("resource_types"), Index(n), Key("type")]))
      else Ok(rest + [ResourceType(types[n].typ.value, if parent.Some? then parent.value else "")])
  }

  function ValidateTool(tool: WireTool, path: Path): Result<ToolSpec> {
    var name :- Need(tool.name, "name", path);
    var description :- Need(tool.description, "description", path);
    var service :- Need(tool.service, "service", path);
    var source :- Need(tool.source, "source", path);
    var operationClass :- Need(tool.operationClass, "operation_class", path);
    if operationClass != "read" && operationClass != "write"
    then Err(ManifestError(InvalidOperationClass, path + [Key("operation_class")]))
    else if tool.route.None? then Err(ManifestError(MissingField, path + [Key("route")]))
    else
      var route :- ValidateRoute(tool.route.value, path + [Key("route")]);
      var _ :- ValidateLists(route, tool, path);
      var types :- ValidateResources(if tool.resourceTypes.Some? then tool.resourceTypes.value else [], path);
      Ok(ToolSpec(name, description, if tool.parameters.Some? then tool.parameters.value else map[], service, source,
                  operationClass, Some(route),
                  if tool.requiredCapabilities.Some? then tool.requiredCapabilities.value else [],
                  types, Some(tool.enabled.None? || tool.enabled.value)))
  }

  // ---- Parsing ----

  function ToolPath(i: nat): Path {
    [Key("tools"), Index(i)]
  }

  function DecodeAll(items: seq<Json>): Result<seq<WireTool>> {
    if items == [] then Ok([])
    else
      var n := |items| - 1;
      var rest :- DecodeAll(items[..n]);
      var tool :- DecodeTool(items[n], ToolPath(n));
      Ok(rest + [tool])
  }

  predicate HasName(specs: seq<ToolSpec>, name: string) {
    exists i :: 0 <= i < |specs| && specs[i].name == name
  }

  function ValidateAll(tools: seq<WireTool>): Result<seq<ToolSpec>> {
    if tools == [] then Ok([])
    else
      var n := |tools| - 1;
      var rest :- ValidateAll(tools[..n]);
      var spec :- ValidateTool(tools[n], ToolPath(n));
      if HasName(rest, spec.name) then Err(ManifestError(DuplicateToolName, ToolPath(n) + [Key("name")]))
      else Ok(rest + [spec])
  }

  function ParseManifest(doc: Json): Result<seq<ToolSpec>> {
    if !doc.JObject? then Err(ManifestError(InvalidType, []))
    else if "schema" !in doc.fields || doc.fields["schema"] != JString(Schema)
    then Err(ManifestError(UnsupportedSchema, [Key("schema")]))
    else if "tools" !in doc.fields then Err(ManifestError(MissingField, [Key("tools")]))
    else if !doc.fields["tools"].JArray? then Err(ManifestError(InvalidType, [Key("tools")]))
    else if !OnlyFields(doc.fields, {"schema", "tools"}) then UnknownAt(doc.fields, {"schema", "tools"}, [])
    else
      var decoded :- DecodeAll(doc.fields["tools"].items);
      ValidateAll(decoded)
  }

  /** The loops of the parser: decode everything first, then validate tool by tool and keep
      the names seen. */
  method ParseManifestV3(doc: Json) returns (r: Result<seq<ToolSpec>>)
    ensures r == ParseManifest(doc)
  {
    if !doc.JObject? { return Err(ManifestError(InvalidType, [])); }
    var obj := doc.fields;
    if "schema" !in obj || obj["schema"] != JString(Schema) {
      return Err(ManifestError(UnsupportedSchema, [Key("schema")]));
    }
    if "tools" !in obj { return Err(ManifestError(MissingField, [Key("tools")])); }
    if !obj["tools"].JArray? { return Err(ManifestError(InvalidType, [Key("tools")])); }
    if !OnlyFields(obj, {"schema", "tools"}) { return UnknownAt(obj, {"schema", "tools"}, []); }
    var decoded := DecodeLoop(obj["tools"].items);
    if decoded.Err? { return Err(decoded.error); }
    r := ValidateLoop(decoded.value);
  }

  lemma {:induction false} DecodeAllFails(items: seq<Json>, i: nat)
    requires i <= |items| && DecodeAll(items[..i]).Err?
    ensures DecodeAll(items) == Err(DecodeAll(items[..i]).error)
  {
    if i == |items| {
      assert items[..i] == items;
    } else {
      assert items[..|items| - 1][..i] == items[..i];
      DecodeAllFails(items[..|items| - 1], i);
    }
  }

  method DecodeLoop(items: seq<Json>) returns (r: Result<seq<WireTool>>)
    ensures r == DecodeAll(items)
  {
    var decoded: seq<WireTool> := [];
    for i := 0 to |items|
      invariant DecodeAll(items[..i]) == Ok(decoded)
    {
      assert items[..i + 1][..i] == items[..i];
      var tool := DecodeTool(items[i], ToolPath(i));
      if tool.Err? {
        DecodeAllFails(items, i + 1);
        return Err(tool.error);
      }
      decoded := decoded + [tool.value];
    }
    assert items[..|items|] == items;
    return Ok(decoded);
  }

  lemma {:induction false} ValidateAllFails(tools: seq<WireTool>, i: nat)
    requires i <= |tools| && ValidateAll(tools[..i]).Err?
    ensures ValidateAll(tools) == Err(ValidateAll(tools[..i]).error)
  {
    if i == |tools| {
      assert tools[..i] == tools;
    } else {
      assert tools[..|tools| - 1][..i] == tools[..i];
      ValidateAllFails(tools[..|tools| - 1], i);
    }
  }

  lemma ValidateAllStep(tools: seq<WireTool>, i: nat, specs: seq<ToolSpec>, spec: Result<ToolSpec>)
    requires i < |tools| && ValidateAll(tools[..i]) == Ok(specs) && spec == ValidateTool(tools[i], ToolPath(i))
    ensures ValidateAll(tools[..i + 1]) ==
            if spec.Err? then Err(spec.error)
            else if HasName(specs, spec.value.name)
            then Err(ManifestError(DuplicateToolName, ToolPath(i) + [Key("name")]))
            else Ok(specs + [spec.value])
  {
    assert tools[..i + 1][..i] == tools[..i];
  }

  ghost predicate NamesAre(seen: set<string>, specs: seq<ToolSpec>) {
    forall name :: name in seen <==> HasName(specs, name)
  }

  lemma NamesAreStep(seen: set<string>, specs: seq<ToolSpec>, spec: ToolSpec)
    requires NamesAre(seen, specs)
    ensures NamesAre(seen + {spec.name}, specs + [spec])
  {
    forall name ensures name in seen + {spec.name} <==> HasName(specs + [spec], name) { NamesSnoc(specs, spec, name); }
  }

  method ValidateLoop(tools: seq<WireTool>) returns (r: Result<seq<ToolSpec>>)
    ensures r == ValidateAll(tools)
  {
    var specs: seq<ToolSpec> := [];
    var seen: set<string> := {};
    for i := 0 to |tools|
      invariant ValidateAll(tools[..i]) == Ok(specs) && NamesAre(seen, specs)
    {
      var spec := ValidateTool(tools[i], ToolPath(i));
      ValidateAllStep(tools, i, specs, spec);
      if spec.Err? {
        ValidateAllFails(tools, i + 1);
        return Err(spec.error);
      }
      if spec.value.name in seen {
        ValidateAllFails(tools, i + 1);
        return Err(ManifestError(DuplicateToolName, ToolPath(i) + [Key("name")]));
      }
      NamesAreStep(seen, specs, spec.value);
      seen, specs := seen + {spec.value.name}, specs + [spec.value];
    }
    assert tools[..|tools|] == tools;
    return Ok(specs);
  }

  lemma NamesSnoc(specs: seq<ToolSpec>, spec: ToolSpec, name: string)
    ensures HasName(specs + [spec], name) <==> HasName(specs, name) || spec.name == name
  {
    if HasName(specs, name) {
      var i :| 0 <= i < |specs| && specs[i].name == name;
      assert (specs + [spec])[i].name == name;
    }
    if spec.name == name { assert (specs + [spec])[|specs|].name == name; }
  }
}

/** Which documents the manifest parser accepts, and what each accepted document means, written
    out on the JSON values. */
module ManifestExact {
  import opened Options
  import opened Manifest

  // ---- What a document says ----

  /** The field holds this text, which is not empty. */
  predicate Text(obj: map<string, Json>, key: string, value: string) {
    key in obj && obj[key] == JString(value) && value != ""
  }

  /** A route is an object with one field: a harness executor or a connector binding, each with
      its two texts and nothing else. */
  predicate SaysRoute(raw: Json, route: Route) {
    match route
    case Route(Some(h), None) =>
      h.executor != "" && h.registration != "" &&
      raw == JObject(map["harness_executor" :=
                         JObject(map["executor" := JString(h.executor), "registration" := JString(h.registration)])])
    case Route(None, Some(c)) =>
      c.agentID != "" && c.connectorID != "" &&
      raw == JObject(map["connector_binding" :=
                         JObject(map["agent_id" := JString(c.agentID), "connector_id" := JString(c.connectorID)])])
    case _ => false
  }

  predicate SaysStrings(items: seq<Json>, strings: seq<string>) {
    |items| == |strings| && forall i :: 0 <= i < |items| ==> items[i] == JString(strings[i])
  }

  /** A resource type has a name and may have a parent. */
  predicate SaysResource(raw: Json, r: ResourceType) {
    && raw.JObject? && raw.fields.Keys <= {"type", "parent_type"} && Text(raw.fields, "type", r.typ)
    && if "parent_type" in raw.fields then raw.fields["parent_type"] == JString(r.parentType) else r.parentType == ""
  }

  predicate SaysResources(items: seq<Json>, types: seq<ResourceType>) {
    |items| == |types| && forall i :: 0 <= i < |items| ==> SaysResource(items[i], types[i])
  }

  /** A harness tool has neither list. A connector tool has capabilities, at least one, and may
      have resource types, then at least one. */
  predicate SaysLists(obj: map<string, Json>, harness: bool, caps: seq<string>, types: seq<ResourceType>) {
    if harness
    then "required_capabilities" !in obj && "resource_types" !in obj && caps == [] && types == []
    else
      && "required_capabilities" in obj && obj["required_capabilities"].JArray? && caps != []
      && SaysStrings(obj["required_capabilities"].items, caps)
      && if "resource_types" !in obj then types == []
         else obj["resource_types"].JArray? && types != [] && SaysResources(obj["resource_types"].items, types)
  }

  predicate SaysParameters(obj: map<string, Json>, parameters: map<string, Json>) {
    if "parameters" in obj then obj["parameters"] == JObject(parameters) else parameters == map[]
  }

  /** A tool is enabled unless it says otherwise; a null says it is not. */
  predicate SaysEnabled(obj: map<string, Json>, enabled: bool) {
    if "enabled" in obj then obj["enabled"] == JBool(enabled) || (obj["enabled"] == JNull && !enabled) else enabled
  }

  predicate SaysTexts(obj: map<string, Json>, spec: ToolSpec) {
    && Text(obj, "name", spec.name) && Text(obj, "description", spec.description)
    && Text(obj, "service", spec.service) && Text(obj, "source", spec.source)
    && Text(obj, "operation_class", spec.operationClass)
    && (spec.operationClass == "read" || spec.operationClass == "write")
  }

  predicate SaysTool(raw: Json, spec: ToolSpec) {
    && raw.JObject?
    && raw.fields.Keys <= {"name", "description", "service", "source", "operation_class", "route",
                           "required_capabilities", "resource_types", "parameters", "enabled"}
    && SaysTexts(raw.fields, spec)
    && "route" in raw.fields && spec.route.Some? && SaysRoute(raw.fields["route"], spec.route.value)
    && SaysLists(raw.fields, spec.route.value.harness.Some?, spec.requiredCapabilities, spec.resourceTypes)
    && SaysParameters(raw.fields, spec.parameters)
    && spec.enabled.Some? && SaysEnabled(raw.fields, spec.enabled.value)
  }

  predicate DistinctNames(specs: seq<ToolSpec>) {
    forall i, j :: 0 <= i < j < |specs| ==> specs[i].name != specs[j].name
  }

  predicate SaysTools(items: seq<Json>, specs: seq<ToolSpec>) {
    && |items| == |specs| && DistinctNames(specs)
    && forall i :: 0 <= i < |items| ==> SaysTool(items[i], specs[i])
  }

  predicate SaysManifest(doc: Json, specs: seq<ToolSpec>) {
    && doc.JObject? && doc.fields.Keys == {"schema", "tools"}
    && doc.fields["schema"] == JString("kei.tool-manifest/v3")
    && doc.fields["tools"].JArray? && SaysTools(doc.fields["tools"].items, specs)
  }

  // ---- Routes ----

  lemma TwoFields(obj: map<string, Json>, a: string, x: Json, b: string, y: Json)
    requires a != b
    ensures obj == map[a := x, b := y] <==> obj.Keys <= {a, b} && a in obj && b in obj && obj[a] == x && obj[b] == y
  {
    if obj.Keys <= {a, b} && a in obj && b in obj && obj[a] == x && obj[b] == y {
      assert obj.Keys == {a, b};
      assert obj == map[a := x, b := y];
    }
  }

  /** An object of at most the two given fields has both. */
  predicate HasBoth(raw: Json, a: string, x: string, b: string, y: string) {
    raw.JObject? && raw.fields.Keys <= {a, b} && Text(raw.fields, a, x) && Text(raw.fields, b, y)
  }

  lemma HarnessExactly(raw: Json, path: Path, executor: string, registration: string)
    ensures DecodeHarness(raw, path) == Ok(WireHarness(Some(executor), Some(registration)))
            && executor != "" && registration != "" <==>
            HasBoth(raw, "executor", executor, "registration", registration)
  {
  }

  lemma ConnectorExactly(raw: Json, path: Path, agent: string, connector: string)
    ensures DecodeConnector(raw, path) == Ok(WireConnector(Some(agent), Some(connector)))
            && agent != "" && connector != "" <==>
            HasBoth(raw, "agent_id", agent, "connector_id", connector)
  {
  }

  /** A route as the decoder and the validation together take it. */
  predicate TakesRoute(raw: Json, path: Path, route: Route) {
    DecodeRoute(raw, path).Ok? && ValidateRoute(DecodeRoute(raw, path).value, path) == Ok(route)
  }

  lemma OneField(obj: map<string, Json>, a: string, x: Json)
    ensures obj == map[a := x] <==> obj.Keys == {a} && obj[a] == x
  {
    if obj.Keys == {a} && obj[a] == x { assert obj == map[a := x]; }
  }

  lemma TakesHarness(raw: Json, path: Path, h: HarnessExecutor)
    ensures TakesRoute(raw, path, Route(Some(h), None)) <==>
            && raw.JObject? && raw.fields.Keys == {"harness_executor"}
            && HasBoth(raw.fields["harness_executor"], "executor", h.executor, "registration", h.registration)
  {
    if raw.JObject? && "harness_executor" in raw.fields {
      var at := path + [Key("harness_executor")];
      HarnessExactly(raw.fields["harness_executor"], at, h.executor, h.registration);
    }
    if raw.JObject? && raw.fields.Keys <= {"harness_executor", "connector_binding"}
       && "connector_binding" !in raw.fields && "harness_executor" in raw.fields {
      assert raw.fields.Keys == {"harness_executor"};
    }
  }

  lemma TakesConnector(raw: Json, path: Path, c: ConnectorBinding)
    ensures TakesRoute(raw, path, Route(None, Some(c))) <==>
            && raw.JObject? && raw.fields.Keys == {"connector_binding"}
            && HasBoth(raw.fields["connector_binding"], "agent_id", c.agentID, "connector_id", c.connectorID)
  {
    if raw.JObject? && "connector_binding" in raw.fields {
      var at := path + [Key("connector_binding")];
      ConnectorExactly(raw.fields["connector_binding"], at, c.agentID, c.connectorID);
    }
    if raw.JObject? && raw.fields.Keys <= {"harness_executor", "connector_binding"}
       && "harness_executor" !in raw.fields && "connector_binding" in raw.fields {
      assert raw.fields.Keys == {"connector_binding"};
    }
  }

  lemma BothFields(raw: Json, a: string, x: string, b: string, y: string)
    requires a != b
    ensures HasBoth(raw, a, x, b, y) <==> x != "" && y != "" && raw == JObject(map[a := JString(x), b := JString(y)])
  {
    if raw.JObject? { TwoFields(raw.fields, a, JString(x), b, JString(y)); }
  }

  lemma RouteExactly(raw: Json, path: Path, route: Route)
    ensures TakesRoute(raw, path, route) <==> SaysRoute(raw, route)
  {
    match route
    case Route(Some(h), None) =>
      TakesHarness(raw, path, h);
      var inner := JObject(map["executor" := JString(h.executor), "registration" := JString(h.registration)]);
      if raw.JObject? {
        OneField(raw.fields, "harness_executor", inner);
        if "harness_executor" in raw.fields {
          BothFields(raw.fields["harness_executor"], "executor", h.executor, "registration", h.registration);
        }
      }
    case Route(None, Some(c)) =>
      TakesConnector(raw, path, c);
      var inner := JObject(map["agent_id" := JString(c.agentID), "connector_id" := JString(c.connectorID)]);
      if raw.JObject? {
        OneField(raw.fields, "connector_binding", inner);
        if "connector_binding" in raw.fields {
          BothFields(raw.fields["connector_binding"], "agent_id", c.agentID, "connector_id", c.connectorID);
        }
      }
    case _ =>
  }

  // ---- Lists ----

  lemma {:induction false} StringsExactly(items: seq<Json>, path: Path, strings: seq<string>)
    ensures DecodeStrings(items, path) == Ok(strings) <==> SaysStrings(items, strings)
  {
    if items != [] {
      var n := |items| - 1;
      if strings != [] {
        StringsExactly(items[..n], path, strings[..|strings| - 1]);
        assert strings == strings[..|strings| - 1] + [strings[|strings| - 1]];
      }
    }
  }

  /** The i-th resource type as the decoder and the validation together take it. */
  predicate TakesResource(raw: Json, path: Path, r: ResourceType) {
    var w := DecodeResource(raw, path);
    w.Ok? && Given(w.value.typ) && r.typ == w.value.typ.value
    && r.parentType == if w.value.parentType.Some? then w.value.parentType.value else ""
  }

  lemma ResourceExactly(raw: Json, path: Path, r: ResourceType)
    ensures TakesResource(raw, path, r) <==> SaysResource(raw, r)
  {
  }

  predicate TakesResources(items: seq<Json>, path: Path, vpath: Path, types: seq<ResourceType>) {
    DecodeResources(items, path).Ok? && ValidateResources(DecodeResources(items, path).value, vpath) == Ok(types)
  }

  lemma {:induction false} ResourcesLength(items: seq<Json>, path: Path)
    ensures DecodeResources(items, path).Ok? ==> |DecodeResources(items, path).value| == |items|
  {
    if items != [] { ResourcesLength(items[..|items| - 1], path); }
  }

  lemma TakesSnoc(items: seq<Json>, path: Path, vpath: Path, types: seq<ResourceType>, r: ResourceType)
    requires items != []
    ensures var n := |items| - 1;
            TakesResources(items, path, vpath, types + [r]) <==>
            TakesResources(items[..n], path, vpath, types) && TakesResource(items[n], path + [Index(n)], r)
  {
    var n := |items| - 1;
    var rest, w := DecodeResources(items[..n], path), DecodeResource(items[n], path + [Index(n)]);
    if rest.Ok? && w.Ok? {
      ValidatesSnoc(rest.value, w.value, vpath, types, r);
    }
  }

  lemma ValidatesSnoc(rest: seq<WireResource>, w: WireResource, vpath: Path, types: seq<ResourceType>, r: ResourceType)
    ensures ValidateResources(rest + [w], vpath) == Ok(types + [r]) <==>
            && ValidateResources(rest, vpath) == Ok(types) && Given(w.typ) && r.typ == w.typ.value
            && r.parentType == if w.parentType.Some? then w.parentType.value else ""
  {
    assert (rest + [w])[..|rest|] == rest;
    var before := ValidateResources(rest, vpath);
    if before.Ok? && Given(w.typ) {
      var last := ResourceType(w.typ.value, if w.parentType.Some? then w.parentType.value else "");
      assert ValidateResources(rest + [w], vpath) == Ok(before.value + [last]);
      if before.value + [last] == types + [r] {
        assert (before.value + [last])[|before.value|] == last && (types + [r])[|types|] == r;
        assert before.value == (types + [r])[..|types|] == types;
      }
    }
  }

  lemma {:induction false} ResourcesExactly(items: seq<Json>, path: Path, vpath: Path, types: seq<ResourceType>)
    ensures TakesResources(items, path, vpath, types) <==> SaysResources(items, types)
  {
    if items == [] {
    } else if types == [] {
      TakesNone(items, path, vpath);
    } else {
      var n, m := |items| - 1, |types| - 1;
      assert types == types[..m] + [types[m]];
      TakesSnoc(items, path, vpath, types[..m], types[m]);
      ResourcesExactly(items[..n], path, vpath, types[..m]);
      ResourceExactly(items[n], path + [Index(n)], types[m]);
    }
  }

  lemma TakesNone(items: seq<Json>, path: Path, vpath: Path)
    requires items != []
    ensures !TakesResources(items, path, vpath, [])
  {
    ResourcesLength(items, path);
  }

  /** The two lists as the decoder and the validation together take them. */
  predicate TakesLists(obj: map<string, Json>, path: Path, harness: bool, caps: seq<string>, types: seq<ResourceType>) {
    var c, r := CapabilitiesField(obj, path), ResourcesField(obj, path);
    && c.Ok? && r.Ok?
    && (if harness then c.value.None? && r.value.None?
        else c.value.Some? && c.value.value != [] && !(r.value.Some? && r.value.value == []))
    && caps == (if c.value.Some? then c.value.value else [])
    && ValidateResources(if r.value.Some? then r.value.value else [], path) == Ok(types)
  }

  lemma ListsExactly(obj: map<string, Json>, path: Path, harness: bool, caps: seq<string>, types: seq<ResourceType>)
    ensures TakesLists(obj, path, harness, caps, types) <==> SaysLists(obj, harness, caps, types)
  {
    var capsAt, typesAt := path + [Key("required_capabilities")], path + [Key("resource_types")];
    if "required_capabilities" in obj && obj["required_capabilities"].JArray? {
      StringsExactly(obj["required_capabilities"].items, capsAt, caps);
    }
    if "resource_types" in obj && obj["resource_types"].JArray? {
      ResourcesExactly(obj["resource_types"].items, typesAt, path, types);
      ResourcesLength(obj["resource_types"].items, typesAt);
    }
  }

  // ---- Tools ----

  predicate TakesTool(raw: Json, path: Path, spec: ToolSpec) {
    DecodeTool(raw, path).Ok? && ValidateTool(DecodeTool(raw, path).value, path) == Ok(spec)
  }

  predicate TakesRouteOf(obj: map<string, Json>, path: Path, spec: ToolSpec) {
    "route" in obj && spec.route.Some? && TakesRoute(obj["route"], path + [Key("route")], spec.route.value)
  }

  /** Field by field, as the decoder and the validation together take the tool. */
  predicate TakesFields(obj: map<string, Json>, path: Path, spec: ToolSpec) {
    && OnlyFields(obj, ToolFieldNames) && SaysTexts(obj, spec) && TakesRouteOf(obj, path, spec)
    && TakesLists(obj, path, spec.route.value.harness.Some?, spec.requiredCapabilities, spec.resourceTypes)
    && SaysParameters(obj, spec.parameters)
    && spec.enabled.Some? && SaysEnabled(obj, spec.enabled.value)
  }

  lemma TakenFields(raw: Json, path: Path, spec: ToolSpec)
    requires TakesTool(raw, path, spec)
    ensures raw.JObject? && TakesFields(raw.fields, path, spec)
  {
  }

  lemma FieldsTaken(obj: map<string, Json>, path: Path, spec: ToolSpec)
    requires TakesFields(obj, path, spec)
    ensures TakesTool(JObject(obj), path, spec)
  {
  }

  lemma ToolExactly(raw: Json, path: Path, spec: ToolSpec)
    ensures TakesTool(raw, path, spec) <==> SaysTool(raw, spec)
  {
    if raw.JObject? && spec.route.Some? {
      var obj, harness := raw.fields, spec.route.value.harness.Some?;
      if "route" in obj { RouteExactly(obj["route"], path + [Key("route")], spec.route.value); }
      ListsExactly(obj, path, harness, spec.requiredCapabilities, spec.resourceTypes);
    }
    if TakesTool(raw, path, spec) { TakenFields(raw, path, spec); }
    if SaysTool(raw, spec) { FieldsTaken(raw.fields, path, spec); }
  }

  // ---- Documents ----

  predicate TakesTools(items: seq<Json>, specs: seq<ToolSpec>) {
    DecodeAll(items).Ok? && ValidateAll(DecodeAll(items).value) == Ok(specs)
  }

  lemma {:induction false} DecodedLength(items: seq<Json>)
    ensures DecodeAll(items).Ok? ==> |DecodeAll(items).value| == |items|
  {
    if items != [] { DecodedLength(items[..|items| - 1]); }
  }

  lemma ValidatedSnoc(rest: seq<WireTool>, tool: WireTool, specs: seq<ToolSpec>, spec: ToolSpec)
    ensures ValidateAll(rest + [tool]) == Ok(specs + [spec]) <==>
            && ValidateAll(rest) == Ok(specs) && ValidateTool(tool, ToolPath(|rest|)) == Ok(spec)
            && !HasName(specs, spec.name)
  {
    assert (rest + [tool])[..|rest|] == rest;
    var before, last := ValidateAll(rest), ValidateTool(tool, ToolPath(|rest|));
    if before.Ok? && last.Ok? && before.value + [last.value] == specs + [spec] {
      assert (before.value + [last.value])[|before.value|] == last.value && (specs + [spec])[|specs|] == spec;
      assert before.value == (specs + [spec])[..|specs|] == specs;
    }
  }

  lemma ToolsSnoc(items: seq<Json>, specs: seq<ToolSpec>, spec: ToolSpec)
    requires items != []
    ensures var n := |items| - 1;
            TakesTools(items, specs + [spec]) <==>
            TakesTools(items[..n], specs) && TakesTool(items[n], ToolPath(n), spec) && !HasName(specs, spec.name)
  {
    var n := |items| - 1;
    var rest, tool := DecodeAll(items[..n]), DecodeTool(items[n], ToolPath(n));
    DecodedLength(items[..n]);
    if rest.Ok? && tool.Ok? { ValidatedSnoc(rest.value, tool.value, specs, spec); }
  }

  lemma {:induction false} ValidatedLength(tools: seq<WireTool>)
    ensures ValidateAll(tools).Ok? ==> |ValidateAll(tools).value| == |tools|
  {
    if tools != [] { ValidatedLength(tools[..|tools| - 1]); }
  }

  lemma SaysSnoc(items: seq<Json>, specs: seq<ToolSpec>, spec: ToolSpec)
    requires items != []
    ensures var n := |items| - 1;
            SaysTools(items, specs + [spec]) <==>
            SaysTools(items[..n], specs) && SaysTool(items[n], spec) && !HasName(specs, spec.name)
  {
    var n, all := |items| - 1, specs + [spec];
    if SaysTools(items, all) {
      assert all[..|specs|] == specs;
      assert forall i :: 0 <= i < |specs| ==> all[i] == specs[i];
      assert SaysTool(items[n], all[n]);
      assert all[|specs|] == spec;
    }
  }

  lemma {:induction false} ToolsExactly(items: seq<Json>, specs: seq<ToolSpec>)
    ensures TakesTools(items, specs) <==> SaysTools(items, specs)
  {
    if items == [] {
    } else if specs == [] {
      DecodedLength(items);
      if DecodeAll(items).Ok? { ValidatedLength(DecodeAll(items).value); }
    } else {
      var n, m := |items| - 1, |specs| - 1;
      assert specs == specs[..m] + [specs[m]];
      ToolsExactly(items[..n], specs[..m]);
      ToolExactly(items[n], ToolPath(n), specs[m]);
      ToolsSnoc(items, specs[..m], specs[m]);
      SaysSnoc(items, specs[..m], specs[m]);
    }
  }

  /** A document parses to these specs exactly when it says so: the schema, one object per spec
      in order and nothing else, every required text given, one route, the lists its route
      allows, no name twice, parameters empty and enabled true where they are left out. */
  lemma ParsesExactly(doc: Json, specs: seq<ToolSpec>)
    ensures ParseManifest(doc) == Ok(specs) <==> SaysManifest(doc, specs)
  {
    if doc.JObject? && "tools" in doc.fields && doc.fields["tools"].JArray? {
      ToolsExactly(doc.fields["tools"].items, specs);
    }
    if doc.JObject? && doc.fields.Keys <= {"schema", "tools"} && "schema" in doc.fields && "tools" in doc.fields {
      assert doc.fields.Keys == {"schema", "tools"};
    }
  }

  /** And it says at most one thing. */
  lemma SaysOne(doc: Json, specs: seq<ToolSpec>, others: seq<ToolSpec>)
    requires SaysManifest(doc, specs) && SaysManifest(doc, others)
    ensures specs == others
  {
    ParsesExactly(doc, specs);
    ParsesExactly(doc, others);
  }
}

/** Round trips of the tool manifest v3. */
module ManifestRoundTrip {
  import opened Options
  import opened Manifest

  /** What survives being written and read: everything but the parameters, with the enabled
      flag spelled out. */
  function Normalized(spec: ToolSpec): ToolSpec {
    spec.(parameters := map[], enabled := Some(spec.enabled.None? || spec.enabled.value))
  }

  predicate TypesNamed(types: seq<ResourceType>) {
    forall i :: 0 <= i < |types| ==> types[i].typ != ""
  }

  predicate DistinctNames(specs: seq<ToolSpec>) {
    forall i, j :: 0 <= i < j < |specs| ==> specs[i].name != specs[j].name
  }

  function WireResourceOf(r: ResourceType): WireResource {
    WireResource(Some(r.typ), if r.parentType == "" then None else Some(r.parentType))
  }

  function WireResourcesOf(types: seq<ResourceType>): seq<WireResource> {
    seq(|types|, i requires 0 <= i < |types| => WireResourceOf(types[i]))
  }

  function WireRouteOf(r: Route): WireRoute {
    WireRoute(if r.harness.Some?
              then Some(WireHarness(Some(r.harness.value.executor), Some(r.harness.value.registration))) else None,
              if r.connector.Some?
              then Some(WireConnector(Some(r.connector.value.agentID), Some(r.connector.value.connectorID))) else None)
  }

  /** The decoded form of a written spec. */
  function WireOf(spec: ToolSpec): WireTool
    requires spec.route.Some?
  {
    WireTool(Some(spec.name), Some(spec.description), Some(spec.service), Some(spec.source), Some(spec.operationClass),
             Some(WireRouteOf(spec.route.value)),
             if spec.requiredCapabilities == [] then None else Some(spec.requiredCapabilities),
             if spec.resourceTypes == [] then None else Some(WireResourcesOf(spec.resourceTypes)),
             None, Some(spec.enabled.None? || spec.enabled.value))
  }

  // ---- Decoding what was written ----

  lemma {:induction false} StringsBack(strings: seq<string>, path: Path)
    ensures DecodeStrings(StringsJson(strings), path) == Ok(strings)
  {
    if strings != [] {
      var n := |strings| - 1;
      StringsBack(strings[..n], path);
      assert StringsJson(strings)[..n] == StringsJson(strings[..n]);
      assert strings == strings[..n] + [strings[n]];
    }
  }

  lemma ResourceBack(r: ResourceType, path: Path)
    ensures DecodeResource(ResourceJson(r), path) == Ok(WireResourceOf(r))
  {
  }

  lemma {:induction false} ResourcesBack(types: seq<ResourceType>, path: Path)
    ensures DecodeResources(ResourcesJson(types), path) == Ok(WireResourcesOf(types))
  {
    if types != [] {
      var n := |types| - 1;
      ResourcesBack(types[..n], path);
      ResourceBack(types[n], path + [Index(n)]);
      assert ResourcesJson(types)[..n] == ResourcesJson(types[..n]);
      assert WireResourcesOf(types) == WireResourcesOf(types[..n]) + [WireResourceOf(types[n])];
    } else {
      assert WireResourcesOf(types) == [];
    }
  }

  lemma HarnessBack(h: HarnessExecutor, path: Path)
    ensures DecodeHarness(HarnessJson(h), path) == Ok(WireHarness(Some(h.executor), Some(h.registration)))
  {
  }

  lemma ConnectorBack(c: ConnectorBinding, path: Path)
    ensures DecodeConnector(ConnectorJson(c), path) == Ok(WireConnector(Some(c.agentID), Some(c.connectorID)))
  {
  }

  lemma RouteBack(r: Route, path: Path)
    ensures DecodeRoute(RouteJson(r), path) == Ok(WireRouteOf(r))
  {
    if r.harness.Some? { HarnessBack(r.harness.value, path + [Key("harness_executor")]); }
    if r.connector.Some? { ConnectorBack(r.connector.value, path + [Key("connector_binding")]); }
  }

  lemma FieldsAre(spec: ToolSpec)
    requires spec.route.Some?
    ensures var f := ToolFields(spec);
            && "name" in f && f["name"] == JString(spec.name)
            && "description" in f && f["description"] == JString(spec.description)
            && "service" in f && f["service"] == JString(spec.service)
            && "source" in f && f["source"] == JString(spec.source)
            && "operation_class" in f && f["operation_class"] == JString(spec.operationClass)
            && "route" in f && f["route"] == RouteJson(spec.route.value)
            && "enabled" in f && f["enabled"] == JBool(spec.enabled.None? || spec.enabled.value)
  {
  }

  lemma FieldNamesAre(spec: ToolSpec)
    requires spec.route.Some?
    ensures OnlyFields(ToolFields(spec), ToolFieldNames) && "parameters" !in ToolFields(spec)
  {
  }

  lemma ListFieldsAre(spec: ToolSpec)
    requires spec.route.Some?
    ensures var f := ToolFields(spec);
            && ("required_capabilities" in f <==> spec.requiredCapabilities != [])
            && ("required_capabilities" in f ==>
                  f["required_capabilities"] == JArray(StringsJson(spec.requiredCapabilities)))
            && ("resource_types" in f <==> spec.resourceTypes != [])
            && ("resource_types" in f ==> f["resource_types"] == JArray(ResourcesJson(spec.resourceTypes)))
  {
  }

  lemma ToolBack(spec: ToolSpec, path: Path)
    requires spec.route.Some?
    ensures DecodeTool(JObject(ToolFields(spec)), path) == Ok(WireOf(spec))
  {
    FieldsAre(spec);
    FieldNamesAre(spec);
    ListFieldsAre(spec);
    RouteBack(spec.route.value, path + [Key("route")]);
    StringsBack(spec.requiredCapabilities, path + [Key("required_capabilities")]);
    ResourcesBack(spec.resourceTypes, path + [Key("resource_types")]);
  }

  // ---- Validating what was decoded ----

  lemma {:induction false} ResourcesValid(types: seq<ResourceType>, path: Path)
    ensures ValidateResources(WireResourcesOf(types), path).Ok? <==> TypesNamed(types)
    ensures TypesNamed(types) ==> ValidateResources(WireResourcesOf(types), path) == Ok(types)
  {
    var wires := WireResourcesOf(types);
    if types == [] {
      assert wires == [];
    } else {
      var n := |types| - 1;
      ResourcesValid(types[..n], path);
      assert wires[..n] == WireResourcesOf(types[..n]);
      assert types == types[..n] + [types[n]];
      assert forall i :: 0 <= i < n ==> types[..n][i] == types[i];
    }
  }

  lemma RouteValid(r: Route, caps: seq<string>, types: seq<ResourceType>, path: Path)
    requires RouteMarshals(r, caps, types)
    ensures ValidateRoute(WireRouteOf(r), path) == Ok(r)
  {
  }

  /** A spec that marshals is read back, normalised, exactly when each of its resource types
      has a name. */
  lemma ToolValid(spec: ToolSpec, path: Path)
    requires Marshals(spec)
    ensures ValidateTool(WireOf(spec), path).Ok? <==> TypesNamed(spec.resourceTypes)
    ensures TypesNamed(spec.resourceTypes) ==> ValidateTool(WireOf(spec), path) == Ok(Normalized(spec))
  {
    RouteValid(spec.route.value, spec.requiredCapabilities, spec.resourceTypes, path + [Key("route")]);
    ResourcesValid(spec.resourceTypes, path);
    assert WireResourcesOf([]) == [];
    assert ValidateLists(spec.route.value, WireOf(spec), path).Ok?;
  }

  // ---- Whole manifests ----

  ghost predicate AllMarshal(specs: seq<ToolSpec>) {
    forall i :: 0 <= i < |specs| ==> Marshals(specs[i])
  }

  function WiresOf(specs: seq<ToolSpec>): seq<WireTool>
    requires AllMarshal(specs)
  {
    seq(|specs|, i requires 0 <= i < |specs| && Marshals(specs[i]) => WireOf(specs[i]))
  }

  function AllNormalized(specs: seq<ToolSpec>): seq<ToolSpec> {
    seq(|specs|, i requires 0 <= i < |specs| => Normalized(specs[i]))
  }

  ghost predicate DecodesAt(items: seq<Json>, tools: seq<WireTool>, i: nat)
    requires i < |items| == |tools|
  {
    DecodeTool(items[i], ToolPath(i)) == Ok(tools[i])
  }

  lemma {:induction false} DecodeEach(items: seq<Json>, tools: seq<WireTool>)
    requires |items| == |tools| && forall i :: 0 <= i < |items| ==> DecodesAt(items, tools, i)
    ensures DecodeAll(items) == Ok(tools)
  {
    if items != [] {
      var n := |items| - 1;
      forall i | 0 <= i < n ensures DecodesAt(items[..n], tools[..n], i) { assert DecodesAt(items, tools, i); }
      DecodeEach(items[..n], tools[..n]);
      assert DecodesAt(items, tools, n);
      assert tools == tools[..n] + [tools[n]];
    }
  }

  lemma ToolsBack(specs: seq<ToolSpec>)
    requires AllMarshal(specs)
    ensures DecodeAll(ToolsJson(specs)) == Ok(WiresOf(specs))
  {
    forall i | 0 <= i < |specs| ensures DecodesAt(ToolsJson(specs), WiresOf(specs), i) {
      ToolBack(specs[i], ToolPath(i));
    }
    DecodeEach(ToolsJson(specs), WiresOf(specs));
  }

  predicate Readable(specs: seq<ToolSpec>) {
    DistinctNames(specs) && forall i :: 0 <= i < |specs| ==> TypesNamed(specs[i].resourceTypes)
  }

  lemma {:induction false} ToolsValid(specs: seq<ToolSpec>)
    requires AllMarshal(specs)
    ensures ValidateAll(WiresOf(specs)).Ok? <==> Readable(specs)
    ensures Readable(specs) ==> ValidateAll(WiresOf(specs)) == Ok(AllNormalized(specs))
  {
    if specs == [] {
      assert WiresOf(specs) == [] && AllNormalized(specs) == [];
    } else {
      var n := |specs| - 1;
      var before := specs[..n];
      ToolsValid(before);
      assert WiresOf(specs)[..n] == WiresOf(before) && WiresOf(specs)[n] == WireOf(specs[n]);
      ToolValid(specs[n], ToolPath(n));
      ReadableSnoc(specs);
      NormalizedSnoc(specs);
    }
  }

  lemma NormalizedSnoc(specs: seq<ToolSpec>)
    requires specs != []
    ensures AllNormalized(specs) == AllNormalized(specs[..|specs| - 1]) + [Normalized(specs[|specs| - 1])]
  {
  }

  lemma ReadableSnoc(specs: seq<ToolSpec>)
    requires specs != []
    ensures var n := |specs| - 1;
            Readable(specs) <==>
              && Readable(specs[..n]) && TypesNamed(specs[n].resourceTypes)
              && !HasName(AllNormalized(specs[..n]), specs[n].name)
  {
    var n := |specs| - 1;
    var before := specs[..n];
    assert forall i :: 0 <= i < n ==> before[i] == specs[i];
    if HasName(AllNormalized(before), specs[n].name) {
      var i :| 0 <= i < n && AllNormalized(before)[i].name == specs[n].name;
      assert specs[i].name == specs[n].name;
    }
    if Readable(specs[..n]) && TypesNamed(specs[n].resourceTypes) && !HasName(AllNormalized(before), specs[n].name) {
      forall i | 0 <= i < n ensures specs[i].name != specs[n].name {
        assert AllNormalized(before)[i].name == specs[i].name;
      }
    }
  }

  /** For every list of specs that marshals, reading the manifest back succeeds exactly when
      the names are distinct and every resource type has a name; the result is then the
      same specs in order, normalised. */
  lemma MarshalThenParse(specs: seq<ToolSpec>)
    requires AllMarshal(specs)
    ensures ParseManifest(ManifestJson(specs)).Ok? <==> Readable(specs)
    ensures Readable(specs) ==> ParseManifest(ManifestJson(specs)) == Ok(AllNormalized(specs))
  {
    ToolsBack(specs);
    ToolsValid(specs);
    var f := ManifestJson(specs).fields;
    assert f["schema"] == JString(Schema) && f["tools"] == JArray(ToolsJson(specs));
    assert OnlyFields(f, {"schema", "tools"});
  }

  // ---- Accepted documents ----

  lemma {:induction false} ValidResourcesNamed(types: seq<WireResource>, path: Path)
    requires ValidateResources(types, path).Ok?
    ensures TypesNamed(ValidateResources(types, path).value) && |ValidateResources(types, path).value| == |types|
  {
    if types != [] { ValidResourcesNamed(types[..|types| - 1], path); }
  }

  lemma ValidToolMarshals(tool: WireTool, path: Path)
    requires ValidateTool(tool, path).Ok?
    ensures var spec := ValidateTool(tool, path).value;
            Marshals(spec) && TypesNamed(spec.resourceTypes) && spec.enabled.Some?
  {
    ValidResourcesNamed(if tool.resourceTypes.Some? then tool.resourceTypes.value else [], path);
  }

  lemma {:induction false} ValidToolsMarshal(tools: seq<WireTool>)
    requires ValidateAll(tools).Ok?
    ensures var specs := ValidateAll(tools).value;
            AllMarshal(specs) && Readable(specs) && forall i :: 0 <= i < |specs| ==> specs[i].enabled.Some?
  {
    if tools != [] {
      var n := |tools| - 1;
      ValidToolsMarshal(tools[..n]);
      ValidToolMarshals(tools[n], ToolPath(n));
      var before, specs := ValidateAll(tools[..n]).value, ValidateAll(tools).value;
      var spec := specs[|specs| - 1];
      forall i | 0 <= i < |before| ensures before[i].name != spec.name {
        assert !HasName(before, spec.name);
      }
    }
  }

  /** Every accepted document marshals again, and reading that gives the same specs but for
      the parameters, which are not written. */
  lemma ParseThenMarshal(doc: Json)
    requires ParseManifest(doc).Ok?
    ensures var specs := ParseManifest(doc).value;
            && AllMarshal(specs) && ParseManifest(ManifestJson(specs)).Ok?
            && var again := ParseManifest(ManifestJson(specs)).value;
               |again| == |specs| && forall i :: 0 <= i < |specs| ==> again[i] == specs[i].(parameters := map[])
  {
    ValidToolsMarshal(DecodeAll(doc.fields["tools"].items).value);
    var specs := ParseManifest(doc).value;
    MarshalThenParse(specs);
    forall i | 0 <= i < |specs| ensures Normalized(specs[i]) == specs[i].(parameters := map[]) {
      assert specs[i].enabled.Some?;
    }
  }
}

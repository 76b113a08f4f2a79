/** The tool executor's registry: each plugin's tool listing is converted
    into tool definitions, whose parameter lists come from the tools'
    JSON-Schema-like input schemas, and stored under the tool's name, where
    getTool finds them. Listing a plugin's tools (a subprocess connection)
    is an input here: the listing obtained, or the failure message. */
module ToolExecutor {
  import opened Wrappers
  import opened JsonModel
  import opened Types

  /** One entry of an input schema's `properties`; an absent description is "". */
  datatype PropertySchema = PropertySchema(
    propType: string,
    description: string,
    default: Option<Json>)

  /** An input schema: `properties` in entry order, None when absent, and
      the optional `required` list of names. */
  datatype InputSchema = InputSchema(
    schemaType: string,
    properties: Option<seq<(string, PropertySchema)>>,
    required: Option<seq<string>>)

  /** A tool as a plugin lists it. */
  datatype McpTool = McpTool(name: string, description: string, inputSchema: InputSchema)

  /** The parameter made from one property: `required` exactly when the
      schema's `required` list names it. */
  function ParameterOf(entry: (string, PropertySchema), required: Option<seq<string>>): ToolParameter {
    ToolParameter(entry.0, entry.1.propType, required.Some? && entry.0 in required.value,
      entry.1.description, entry.1.default)
  }

  /** convertInputSchemaToParameters as a value: one parameter per property,
      in entry order, none when there are no properties. */
  function SchemaParameters(schema: InputSchema): (params: seq<ToolParameter>)
    ensures schema.properties.None? ==> params == []
    ensures schema.properties.Some? ==> |params| == |schema.properties.value|
    ensures schema.properties.Some? ==> forall i :: 0 <= i < |params| ==>
      var (name, property) := schema.properties.value[i];
      && params[i].name == name
      && params[i].paramType == property.propType
      && params[i].description == property.description
      && params[i].default == property.default
      && (params[i].required <==> schema.required.Some? && name in schema.required.value)
  {
    match schema.properties
    case None => []
    case Some(props) => seq(|props|, i requires 0 <= i < |props| => ParameterOf(props[i], schema.required))
  }

  /** A schema without a `required` list makes every parameter optional. */
  lemma NoRequiredListAllOptional(schema: InputSchema, i: nat)
    requires schema.required.None? && i < |SchemaParameters(schema)|
    ensures !SchemaParameters(schema)[i].required
  {
  }

  /** The names of the parameters are the property names, in order. */
  lemma SchemaParameterNames(schema: InputSchema)
    requires schema.properties.Some?
    ensures seq(|SchemaParameters(schema)|, i requires 0 <= i < |SchemaParameters(schema)| => SchemaParameters(schema)[i].name)
      == seq(|schema.properties.value|, i requires 0 <= i < |schema.properties.value| => schema.properties.value[i].0)
  {
  }

  /** convertInputSchemaToParameters: pushes one parameter per property. */
  method ConvertInputSchemaToParameters(schema: InputSchema) returns (parameters: seq<ToolParameter>)
    ensures parameters == SchemaParameters(schema)
  {
    parameters := [];
    if schema.properties.Some? {
      var props := schema.properties.value;
      for i := 0 to |props|
        invariant |parameters| == i
        invariant forall k :: 0 <= k < i ==> parameters[k] == ParameterOf(props[k], schema.required)
      {
        parameters := parameters + [ParameterOf(props[i], schema.required)];
      }
    }
  }

  /** The definition registerTool stores for a listed tool. */
  function DefinitionOf(tool: McpTool): ToolDefinition {
    ToolDefinition(tool.name, tool.description, SchemaParameters(tool.inputSchema))
  }

  /** The registry after the tools are set in order, each under its name. */
  function Registered(registry: map<string, ToolDefinition>, tools: seq<McpTool>): map<string, ToolDefinition>
    decreases |tools|
  {
    if |tools| == 0 then registry
    else
      var last := tools[|tools| - 1];
      Registered(registry, tools[..|tools| - 1])[last.name := DefinitionOf(last)]
  }

  /** The keys after registration: the earlier ones and the listed names. */
  lemma {:induction false} RegisteredKeys(registry: map<string, ToolDefinition>, tools: seq<McpTool>, name: string)
    ensures name in Registered(registry, tools) <==>
      name in registry || exists k :: 0 <= k < |tools| && tools[k].name == name
    decreases |tools|
  {
    if |tools| > 0 {
      var front := tools[..|tools| - 1];
      RegisteredKeys(registry, front, name);
      if exists k :: 0 <= k < |front| && front[k].name == name {
        var k :| 0 <= k < |front| && front[k].name == name;
        assert tools[k].name == name;
      }
      if exists k :: 0 <= k < |tools| && tools[k].name == name {
        var k :| 0 <= k < |tools| && tools[k].name == name;
        if k < |front| {
          assert front[k].name == name;
        }
      }
    }
  }

  /** A listed tool is found under its name unless a later listed tool has the
      same name: the last registration wins. */
  lemma {:induction false} RegisteredLastWins(registry: map<string, ToolDefinition>, tools: seq<McpTool>, j: nat)
    requires j < |tools|
    requires forall k :: j < k < |tools| ==> tools[k].name != tools[j].name
    ensures tools[j].name in Registered(registry, tools)
    ensures Registered(registry, tools)[tools[j].name] == DefinitionOf(tools[j])
    decreases |tools|
  {
    if j < |tools| - 1 {
      var front := tools[..|tools| - 1];
      assert front[j] == tools[j];
      forall k | j < k < |front| ensures front[k].name != front[j].name {
        assert front[k] == tools[k];
      }
      RegisteredLastWins(registry, front, j);
    }
  }

  /** Every listed name maps to a definition carrying that name. */
  lemma RegisteredNamed(registry: map<string, ToolDefinition>, tools: seq<McpTool>, j: nat)
    requires j < |tools|
    ensures tools[j].name in Registered(registry, tools)
    ensures Registered(registry, tools)[tools[j].name].name == tools[j].name
  {
    var name := tools[j].name;
    var last :| j <= last < |tools| && tools[last].name == name
      && forall k :: last < k < |tools| ==> tools[k].name != name by {
      LastWithName(tools, j);
    }
    RegisteredLastWins(registry, tools, last);
  }

  /** Some listed tool at or after `j` is the last one with `tools[j]`'s name. */
  lemma {:induction false} LastWithName(tools: seq<McpTool>, j: nat)
    requires j < |tools|
    ensures exists last :: (j <= last < |tools| && tools[last].name == tools[j].name
      && forall k :: last < k < |tools| ==> tools[k].name != tools[j].name)
    decreases |tools| - j
  {
    if exists k :: j < k < |tools| && tools[k].name == tools[j].name {
      var k :| j < k < |tools| && tools[k].name == tools[j].name;
      LastWithName(tools, k);
    } else {
      assert j <= j < |tools| && tools[j].name == tools[j].name
        && forall k :: j < k < |tools| ==> tools[k].name != tools[j].name;
    }
  }

  /** Names that are not listed keep their earlier definitions, or stay absent. */
  lemma {:induction false} RegisteredKeepsOthers(registry: map<string, ToolDefinition>, tools: seq<McpTool>, name: string)
    requires forall k :: 0 <= k < |tools| ==> tools[k].name != name
    ensures name in Registered(registry, tools) <==> name in registry
    ensures name in registry ==> Registered(registry, tools)[name] == registry[name]
    decreases |tools|
  {
    if |tools| > 0 {
      var front := tools[..|tools| - 1];
      forall k | 0 <= k < |front| ensures front[k].name != name {
        assert front[k] == tools[k];
      }
      RegisteredKeepsOthers(registry, front, name);
    }
  }

  /** The executor and its name-keyed registry of tool definitions. */
  class ToolExecutor {
    var registry: map<string, ToolDefinition>

    constructor ()
      ensures registry == map[]
    {
      registry := map[];
    }

    /** registerTool with the plugin's listing: on a failed listing the error
        is raised and the registry is untouched; otherwise every listed tool
        is set under its name, in order. */
    method RegisterTool(plugin: string, listing: Result<seq<McpTool>, string>) returns (r: Outcome<Error>)
      modifies this
      ensures listing.Failure? ==> r == Fail(ListToolsFailed(plugin, listing.error)) && registry == old(registry)
      ensures listing.Success? ==> r == Pass && registry == Registered(old(registry), listing.value)
    {
      if listing.Failure? {
        return Fail(ListToolsFailed(plugin, listing.error));
      }
      var tools := listing.value;
      for i := 0 to |tools|
        invariant registry == Registered(old(registry), tools[..i])
      {
        var tool := tools[i];
        var parameters := ConvertInputSchemaToParameters(tool.inputSchema);
        registry := registry[tool.name := ToolDefinition(tool.name, tool.description, parameters)];
        assert tools[..i + 1][..i] == tools[..i];
      }
      assert tools[..|tools|] == tools;
      return Pass;
    }

    /** getTool: the registered definition, or the not-found error. */
    function GetTool(name: string): (r: Result<ToolDefinition, Error>)
      reads this
      ensures r.Success? <==> name in registry
      ensures r.Success? ==> r.value == registry[name]
      ensures r.Failure? ==> r.error == ToolNotFound(name)
    {
      if name in registry then Success(registry[name]) else Failure(ToolNotFound(name))
    }
  }

  /** After a successful registration getTool finds every listed name, with
      the definition of the last tool listed under it, and reports a name
      neither listed nor registered before as not found. */
  lemma GetToolAfterRegister(executor: ToolExecutor, before: map<string, ToolDefinition>, tools: seq<McpTool>, name: string)
    requires executor.registry == Registered(before, tools)
    ensures forall j :: (0 <= j < |tools| && tools[j].name == name
      && (forall k :: j < k < |tools| ==> tools[k].name != name)) ==>
      executor.GetTool(name) == Success(DefinitionOf(tools[j]))
    ensures (forall k :: 0 <= k < |tools| ==> tools[k].name != name) && name !in before ==>
      executor.GetTool(name) == Failure(ToolNotFound(name))
  {
    forall j | 0 <= j < |tools| && tools[j].name == name && (forall k :: j < k < |tools| ==> tools[k].name != name)
      ensures executor.GetTool(name) == Success(DefinitionOf(tools[j]))
    {
      RegisteredLastWins(before, tools, j);
    }
    if forall k :: 0 <= k < |tools| ==> tools[k].name != name {
      RegisteredKeepsOthers(before, tools, name);
    }
  }
}

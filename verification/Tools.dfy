/**
 * The agent's tool descriptions: a tool parameter's JSON schema, a tool's
 * OpenAI function-calling export, argument validation and `execute`.
 * Arguments are Python values; a boolean is an `int` to Python, so it passes
 * the number check and compares as 0 or 1, and `==` equates numbers of
 * different kinds.
 */
module Tools {
  import opened Wrappers
  import opened Lists
  import opened Dicts

  /** A Python value handed in as an argument; `Other` is any other object, compared by identity. */
  datatype Value =
    | Null
    | Bool(b: bool)
    | Int(i: int)
    | Float(f: real)
    | Str(s: string)
    | List(items: seq<Value>)
    | Other(id: nat)

  /** `isinstance(v, (int, float))`, with the number it stands for. */
  function NumberOf(v: Value): (r: Option<real>)
    ensures r.Some? <==> v.Bool? || v.Int? || v.Float?
  {
    match v
    case Bool(b) => Some(if b then 1.0 else 0.0)
    case Int(i) => Some(i as real)
    case Float(f) => Some(f)
    case _ => None
  }

  /** Python's `==`: numbers by value whatever their kind, lists element by element. */
  predicate PyEq(a: Value, b: Value) {
    if NumberOf(a).Some? && NumberOf(b).Some? then NumberOf(a) == NumberOf(b)
    else match (a, b)
      case (Null, Null) => true
      case (Str(x), Str(y)) => x == y
      case (List(xs), List(ys)) => |xs| == |ys| && forall i :: 0 <= i < |xs| ==> PyEq(xs[i], ys[i])
      case (Other(x), Other(y)) => x == y
      case _ => false
  }

  /** `value in choices`. */
  predicate InChoices(v: Value, choices: seq<Value>) {
    exists i :: 0 <= i < |choices| && PyEq(v, choices[i])
  }

  /** `ToolParameter`: `kind` is the schema type name (`"number"`, `"string"`, ...). */
  datatype ToolParameter = ToolParameter(
    name: string,
    kind: string,
    description: string,
    required: bool,
    default: Option<Value>,
    choices: Option<seq<Value>>,
    minValue: Option<real>,
    maxValue: Option<real>,
    pattern: Option<string>)

  /** `if self.enum:` — set and non-empty. */
  predicate HasChoices(p: ToolParameter) {
    p.choices.Some? && p.choices.value != []
  }

  /** `if self.pattern:` — set and non-empty. */
  predicate HasPattern(p: ToolParameter) {
    p.pattern.Some? && p.pattern.value != []
  }

  // ----- the JSON schema -----

  /** A value in a parameter's schema. */
  datatype Field = Text(text: string) | Number(number: real) | Choices(values: seq<Value>)

  /** The keys a parameter's schema can hold. */
  datatype Key = TypeKey | DescriptionKey | EnumKey | MinimumKey | MaximumKey | PatternKey

  /** The JSON spelling of a key. */
  function KeyName(k: Key): string {
    match k
    case TypeKey => "type"
    case DescriptionKey => "description"
    case EnumKey => "enum"
    case MinimumKey => "minimum"
    case MaximumKey => "maximum"
    case PatternKey => "pattern"
  }

  /** The JSON object of a schema, its members in insertion order. */
  type Schema = seq<(Key, Field)>

  /** `schema.get(key)`: the value last stored under the key. */
  function Lookup(schema: Schema, key: Key): Option<Field> {
    if schema == [] then None
    else if schema[|schema| - 1].0 == key then Some(schema[|schema| - 1].1)
    else Lookup(schema[..|schema| - 1], key)
  }

  ghost predicate KeysDistinct(schema: Schema) {
    forall i, j :: 0 <= i < j < |schema| ==> schema[i].0 != schema[j].0
  }

  /** The position of a key in the order `to_json_schema` writes them. */
  function Rank(k: Key): nat {
    match k
    case TypeKey => 0
    case DescriptionKey => 1
    case EnumKey => 2
    case MinimumKey => 3
    case MaximumKey => 4
    case PatternKey => 5
  }

  /** The keys appear in strictly increasing writing order, all of them below `bound`. */
  predicate RankedBelow(schema: Schema, bound: nat) {
    schema == [] ||
    (Rank(schema[|schema| - 1].0) < bound && RankedBelow(schema[..|schema| - 1], Rank(schema[|schema| - 1].0)))
  }

  /** `schema[key] = value` when `present`, for a key not yet in the schema. */
  function AddIf(schema: Schema, present: bool, key: Key, value: Field): Schema {
    if present then schema + [(key, value)] else schema
  }

  /** Adding a later key keeps the keys in writing order. */
  lemma AddIfRanked(schema: Schema, present: bool, key: Key, value: Field)
    requires RankedBelow(schema, Rank(key))
    ensures RankedBelow(AddIf(schema, present, key, value), Rank(key) + 1)
  {
  }

  /** A key added when present is found, and otherwise absent. */
  lemma AddIfLookup(schema: Schema, present: bool, key: Key, value: Field)
    requires RankedBelow(schema, Rank(key))
    ensures Lookup(AddIf(schema, present, key, value), key) == if present then Some(value) else None
  {
    AbsentBelow(schema, key);
    if present {
      assert (schema + [(key, value)])[..|schema|] == schema;
    }
  }

  /** Adding a key leaves the lookup of any other key alone. */
  lemma AddIfOther(schema: Schema, present: bool, key: Key, value: Field, other: Key)
    requires other != key
    ensures Lookup(AddIf(schema, present, key, value), other) == Lookup(schema, other)
  {
    if present {
      assert (schema + [(key, value)])[..|schema|] == schema;
    }
  }

  lemma {:induction false} AbsentBelow(schema: Schema, key: Key)
    requires RankedBelow(schema, Rank(key))
    ensures Lookup(schema, key).None?
  {
    if schema != [] {
      var front := schema[..|schema| - 1];
      assert RankedBelow(front, Rank(key));
      AbsentBelow(front, key);
    }
  }

  /** Keys in strictly increasing order are distinct. */
  lemma {:induction false} RankedDistinct(schema: Schema, bound: nat)
    requires RankedBelow(schema, bound)
    ensures KeysDistinct(schema)
    ensures forall i :: 0 <= i < |schema| ==> Rank(schema[i].0) < bound
  {
    if schema != [] {
      var front := schema[..|schema| - 1];
      var last := schema[|schema| - 1];
      RankedDistinct(front, Rank(last.0));
      forall i, j | 0 <= i < j < |schema| ensures schema[i].0 != schema[j].0 {
        assert schema[i] == front[i];
        if j < |schema| - 1 {
          assert schema[j] == front[j];
        }
      }
      forall i | 0 <= i < |schema| ensures Rank(schema[i].0) < bound {
        if i < |schema| - 1 {
          assert schema[i] == front[i];
        }
      }
    }
  }

  /** `to_json_schema`: the type and the description, then each optional key that is set. */
  function ToJsonSchema(p: ToolParameter): (s: Schema)
    ensures |s| == 2 + (if HasChoices(p) then 1 else 0) + (if p.minValue.Some? then 1 else 0)
                     + (if p.maxValue.Some? then 1 else 0) + (if HasPattern(p) then 1 else 0)
  {
    var s0 := [(TypeKey, Text(p.kind)), (DescriptionKey, Text(p.description))];
    var s1 := AddIf(s0, HasChoices(p), EnumKey, ChoicesField(p));
    var s2 := AddIf(s1, p.minValue.Some?, MinimumKey, MinimumField(p));
    var s3 := AddIf(s2, p.maxValue.Some?, MaximumKey, MaximumField(p));
    AddIf(s3, HasPattern(p), PatternKey, PatternField(p))
  }

  function ChoicesField(p: ToolParameter): Field {
    if HasChoices(p) then Choices(p.choices.value) else Choices([])
  }

  function MinimumField(p: ToolParameter): Field {
    if p.minValue.Some? then Number(p.minValue.value) else Number(0.0)
  }

  function MaximumField(p: ToolParameter): Field {
    if p.maxValue.Some? then Number(p.maxValue.value) else Number(0.0)
  }

  function PatternField(p: ToolParameter): Field {
    if HasPattern(p) then Text(p.pattern.value) else Text("")
  }

  /** The schema opens with the type and the description. */
  lemma SchemaOpens(p: ToolParameter)
    ensures |ToJsonSchema(p)| >= 2
    ensures ToJsonSchema(p)[..2] == [(TypeKey, Text(p.kind)), (DescriptionKey, Text(p.description))]
  {
    var s0 := [(TypeKey, Text(p.kind)), (DescriptionKey, Text(p.description))];
    assert ToJsonSchema(p)[..|s0|] == s0;
  }

  /** The schema lists its keys in writing order, so each at most once. */
  lemma SchemaDistinct(p: ToolParameter)
    ensures KeysDistinct(ToJsonSchema(p))
  {
    var s0 := [(TypeKey, Text(p.kind)), (DescriptionKey, Text(p.description))];
    var s1 := AddIf(s0, HasChoices(p), EnumKey, ChoicesField(p));
    var s2 := AddIf(s1, p.minValue.Some?, MinimumKey, MinimumField(p));
    var s3 := AddIf(s2, p.maxValue.Some?, MaximumKey, MaximumField(p));
    assert RankedBelow(s0, 2);
    AddIfRanked(s0, HasChoices(p), EnumKey, ChoicesField(p));
    AddIfRanked(s1, p.minValue.Some?, MinimumKey, MinimumField(p));
    AddIfRanked(s2, p.maxValue.Some?, MaximumKey, MaximumField(p));
    AddIfRanked(s3, HasPattern(p), PatternKey, PatternField(p));
    RankedDistinct(ToJsonSchema(p), 6);
  }

  /** The schema holds `"enum"` exactly when the enum is set and non-empty, with its values. */
  lemma SchemaEnum(p: ToolParameter)
    ensures Lookup(ToJsonSchema(p), EnumKey) == if HasChoices(p) then Some(Choices(p.choices.value)) else None
  {
    var s0 := [(TypeKey, Text(p.kind)), (DescriptionKey, Text(p.description))];
    var s1 := AddIf(s0, HasChoices(p), EnumKey, ChoicesField(p));
    var s2 := AddIf(s1, p.minValue.Some?, MinimumKey, MinimumField(p));
    var s3 := AddIf(s2, p.maxValue.Some?, MaximumKey, MaximumField(p));
    assert RankedBelow(s0, 2);
    AddIfLookup(s0, HasChoices(p), EnumKey, ChoicesField(p));
    AddIfOther(s1, p.minValue.Some?, MinimumKey, MinimumField(p), EnumKey);
    AddIfOther(s2, p.maxValue.Some?, MaximumKey, MaximumField(p), EnumKey);
    AddIfOther(s3, HasPattern(p), PatternKey, PatternField(p), EnumKey);
  }

  /** The schema holds `"minimum"` exactly when the minimum is set, with its value. */
  lemma SchemaMinimum(p: ToolParameter)
    ensures Lookup(ToJsonSchema(p), MinimumKey) == if p.minValue.Some? then Some(Number(p.minValue.value)) else None
  {
    var s0 := [(TypeKey, Text(p.kind)), (DescriptionKey, Text(p.description))];
    var s1 := AddIf(s0, HasChoices(p), EnumKey, ChoicesField(p));
    var s2 := AddIf(s1, p.minValue.Some?, MinimumKey, MinimumField(p));
    var s3 := AddIf(s2, p.maxValue.Some?, MaximumKey, MaximumField(p));
    assert RankedBelow(s0, 2);
    AddIfRanked(s0, HasChoices(p), EnumKey, ChoicesField(p));
    AddIfLookup(s1, p.minValue.Some?, MinimumKey, MinimumField(p));
    AddIfOther(s2, p.maxValue.Some?, MaximumKey, MaximumField(p), MinimumKey);
    AddIfOther(s3, HasPattern(p), PatternKey, PatternField(p), MinimumKey);
  }

  /** The schema holds `"maximum"` exactly when the maximum is set, with its value. */
  lemma SchemaMaximum(p: ToolParameter)
    ensures Lookup(ToJsonSchema(p), MaximumKey) == if p.maxValue.Some? then Some(Number(p.maxValue.value)) else None
  {
    var s0 := [(TypeKey, Text(p.kind)), (DescriptionKey, Text(p.description))];
    var s1 := AddIf(s0, HasChoices(p), EnumKey, ChoicesField(p));
    var s2 := AddIf(s1, p.minValue.Some?, MinimumKey, MinimumField(p));
    var s3 := AddIf(s2, p.maxValue.Some?, MaximumKey, MaximumField(p));
    assert RankedBelow(s0, 2);
    AddIfRanked(s0, HasChoices(p), EnumKey, ChoicesField(p));
    AddIfRanked(s1, p.minValue.Some?, MinimumKey, MinimumField(p));
    AddIfLookup(s2, p.maxValue.Some?, MaximumKey, MaximumField(p));
    AddIfOther(s3, HasPattern(p), PatternKey, PatternField(p), MaximumKey);
  }

  /** The schema holds `"pattern"` exactly when the pattern is set and non-empty, with its text. */
  lemma SchemaPattern(p: ToolParameter)
    ensures Lookup(ToJsonSchema(p), PatternKey) == if HasPattern(p) then Some(Text(p.pattern.value)) else None
  {
    var s0 := [(TypeKey, Text(p.kind)), (DescriptionKey, Text(p.description))];
    var s1 := AddIf(s0, HasChoices(p), EnumKey, ChoicesField(p));
    var s2 := AddIf(s1, p.minValue.Some?, MinimumKey, MinimumField(p));
    var s3 := AddIf(s2, p.maxValue.Some?, MaximumKey, MaximumField(p));
    assert RankedBelow(s0, 2);
    AddIfRanked(s0, HasChoices(p), EnumKey, ChoicesField(p));
    AddIfRanked(s1, p.minValue.Some?, MinimumKey, MinimumField(p));
    AddIfRanked(s2, p.maxValue.Some?, MaximumKey, MaximumField(p));
    AddIfLookup(s3, HasPattern(p), PatternKey, PatternField(p));
  }

  // ----- the OpenAI export -----

  /** A tool; the Python callable it wraps is passed to `Execute`. */
  datatype Tool = Tool(name: string, category: string, description: string, parameters: seq<ToolParameter>, resultDescription: string)

  /** The `"parameters"` object of the export, whose `"type"` is always `"object"`. */
  datatype ParametersSchema = ParametersSchema(properties: Dict<string, Schema>, required: seq<string>)

  datatype OpenAIFunction = OpenAIFunction(name: string, description: string, parameters: ParametersSchema)

  /** The names of the required parameters, in declaration order. */
  function RequiredNames(ps: seq<ToolParameter>): seq<string> {
    if ps == [] then []
    else RequiredNames(ps[..|ps| - 1]) + (if ps[|ps| - 1].required then [ps[|ps| - 1].name] else [])
  }

  /** `properties[param.name] = param.to_json_schema()` for each parameter in turn. */
  function Properties(ps: seq<ToolParameter>): (d: Dict<string, Schema>)
    ensures d.Valid()
  {
    if ps == [] then Empty()
    else Properties(ps[..|ps| - 1]).Put(ps[|ps| - 1].name, ToJsonSchema(ps[|ps| - 1]))
  }

  /** A name is listed as required exactly when some parameter of that name is required. */
  lemma {:induction false} RequiredNamesIn(ps: seq<ToolParameter>, n: string)
    ensures n in RequiredNames(ps) <==> exists i :: 0 <= i < |ps| && ps[i].required && ps[i].name == n
  {
    if ps != [] {
      var front := ps[..|ps| - 1];
      RequiredNamesIn(front, n);
      if exists i :: 0 <= i < |ps| && ps[i].required && ps[i].name == n {
        var i :| 0 <= i < |ps| && ps[i].required && ps[i].name == n;
        if i < |front| {
          assert front[i] == ps[i];
        }
      }
      if exists i :: 0 <= i < |front| && front[i].required && front[i].name == n {
        var i :| 0 <= i < |front| && front[i].required && front[i].name == n;
        assert ps[i] == front[i];
      }
    }
  }

  /** The required list has one entry per required parameter, duplicate names included. */
  lemma {:induction false} RequiredNamesCount(ps: seq<ToolParameter>)
    ensures |RequiredNames(ps)| == |Filter(ps, (p: ToolParameter) => p.required)|
  {
    if ps != [] {
      var front := ps[..|ps| - 1];
      assert ps == front + [ps[|ps| - 1]];
      FilterSnoc(front, ps[|ps| - 1], (p: ToolParameter) => p.required);
      RequiredNamesCount(front);
    }
  }

  /**
   * Every parameter has a schema under its name, and the schema stored
   * under a name is that of the last parameter bearing it.
   */
  lemma {:induction false} PropertiesHold(ps: seq<ToolParameter>, i: nat)
    requires i < |ps|
    requires forall j :: i < j < |ps| ==> ps[j].name != ps[i].name
    ensures ps[i].name in Properties(ps).items
    ensures Properties(ps).items[ps[i].name] == ToJsonSchema(ps[i])
  {
    if i < |ps| - 1 {
      var front := ps[..|ps| - 1];
      PropertiesHold(front, i);
    }
  }

  /** No key is listed that no parameter carries. */
  lemma {:induction false} PropertiesOnlyParameters(ps: seq<ToolParameter>, n: string)
    requires n in Properties(ps).items
    ensures exists i :: 0 <= i < |ps| && ps[i].name == n
  {
    var front := ps[..|ps| - 1];
    if n != ps[|ps| - 1].name {
      PropertiesOnlyParameters(front, n);
      var i :| 0 <= i < |front| && front[i].name == n;
      assert ps[i] == front[i];
    }
  }

  /** `to_openai_function`: one loop fills the properties and the required list. */
  method ToOpenAIFunction(tool: Tool) returns (f: OpenAIFunction)
    ensures f.name == tool.name && f.description == tool.description
    ensures f.parameters.properties == Properties(tool.parameters)
    ensures f.parameters.required == RequiredNames(tool.parameters)
  {
    var ps := tool.parameters;
    var properties: Dict<string, Schema> := Empty();
    var required: seq<string> := [];
    for i := 0 to |ps|
      invariant properties == Properties(ps[..i])
      invariant required == RequiredNames(ps[..i])
    {
      assert ps[..i + 1][..i] == ps[..i];
      properties := properties.Put(ps[i].name, ToJsonSchema(ps[i]));
      if ps[i].required {
        required := required + [ps[i].name];
      }
    }
    assert ps[..|ps|] == ps;
    return OpenAIFunction(tool.name, tool.description, ParametersSchema(properties, required));
  }

  // ----- validation -----

  /** The reason `validate_parameters` gives, in place of its formatted message. */
  datatype Error =
    | Missing(name: string)
    | NotNumber(name: string)
    | NotString(name: string)
    | NotBoolean(name: string)
    | NotArray(name: string)
    | BelowMin(name: string, bound: real)
    | AboveMax(name: string, bound: real)
    | NotInChoices(name: string, choices: seq<Value>)

  /** One turn of the validation loop, for one parameter definition. */
  function Check(p: ToolParameter, args: map<string, Value>): (r: Option<Error>)
    ensures r.None? <==> Accepts(p, args)
    ensures r.Some? ==> r.value.name == p.name
  {
    if p.required && p.name !in args then Some(Missing(p.name))
    else if p.name !in args then None
    else
      var v := args[p.name];
      if p.kind == "number" && NumberOf(v).None? then Some(NotNumber(p.name))
      else if p.kind == "string" && !v.Str? then Some(NotString(p.name))
      else if p.kind == "boolean" && !v.Bool? then Some(NotBoolean(p.name))
      else if p.kind == "array" && !v.List? then Some(NotArray(p.name))
      else if p.kind == "number" && p.minValue.Some? && NumberOf(v).value < p.minValue.value then
        Some(BelowMin(p.name, p.minValue.value))
      else if p.kind == "number" && p.maxValue.Some? && NumberOf(v).value > p.maxValue.value then
        Some(AboveMax(p.name, p.maxValue.value))
      else if HasChoices(p) && !InChoices(v, p.choices.value) then Some(NotInChoices(p.name, p.choices.value))
      else None
  }

  /** The value has the declared type; a kind without a check accepts anything. */
  predicate TypeFits(kind: string, v: Value) {
    && (kind == "number" ==> NumberOf(v).Some?)
    && (kind == "string" ==> v.Str?)
    && (kind == "boolean" ==> v.Bool?)
    && (kind == "array" ==> v.List?)
  }

  /** A number argument lies within the bounds that are set. */
  predicate InBounds(p: ToolParameter, v: Value)
    requires TypeFits(p.kind, v)
  {
    p.kind == "number" ==>
      && (p.minValue.Some? ==> NumberOf(v).value >= p.minValue.value)
      && (p.maxValue.Some? ==> NumberOf(v).value <= p.maxValue.value)
  }

  /** A declarative reading of an acceptable argument for one parameter. */
  ghost predicate Accepts(p: ToolParameter, args: map<string, Value>) {
    && (p.required ==> p.name in args)
    && (p.name in args ==>
          && TypeFits(p.kind, args[p.name])
          && InBounds(p, args[p.name])
          && (HasChoices(p) ==> InChoices(args[p.name], p.choices.value)))
  }

  /** A required parameter without an argument is reported missing. */
  lemma MissingFails(p: ToolParameter, args: map<string, Value>)
    requires p.required && p.name !in args
    ensures Check(p, args) == Some(Missing(p.name))
  {
  }

  /** A present argument of the wrong type is reported with the type it should have had. */
  lemma WrongTypeFails(p: ToolParameter, args: map<string, Value>)
    requires p.name in args
    ensures p.kind == "number" && NumberOf(args[p.name]).None? ==> Check(p, args) == Some(NotNumber(p.name))
    ensures p.kind == "string" && !args[p.name].Str? ==> Check(p, args) == Some(NotString(p.name))
    ensures p.kind == "boolean" && !args[p.name].Bool? ==> Check(p, args) == Some(NotBoolean(p.name))
    ensures p.kind == "array" && !args[p.name].List? ==> Check(p, args) == Some(NotArray(p.name))
  {
  }

  /** A number out of its bounds, or a value outside the enum, is reported once the type fits. */
  lemma OutOfRangeFails(p: ToolParameter, args: map<string, Value>)
    requires p.name in args && TypeFits(p.kind, args[p.name])
    ensures p.kind == "number" && p.minValue.Some? && NumberOf(args[p.name]).value < p.minValue.value ==>
      Check(p, args) == Some(BelowMin(p.name, p.minValue.value))
    ensures (&& p.kind == "number" && p.maxValue.Some? && NumberOf(args[p.name]).value > p.maxValue.value
             && (p.minValue.Some? ==> NumberOf(args[p.name]).value >= p.minValue.value))
      ==> Check(p, args) == Some(AboveMax(p.name, p.maxValue.value))
    ensures (&& InBounds(p, args[p.name])
             && HasChoices(p) && !InChoices(args[p.name], p.choices.value))
      ==> Check(p, args) == Some(NotInChoices(p.name, p.choices.value))
  {
  }

  /** `True` passes the number check of a parameter that asks for at least 1. */
  lemma BooleanIsNumber()
    ensures Check(ToolParameter("x", "number", "", true, None, None, Some(1.0), None, None), map["x" := Bool(true)]).None?
  {
  }

  /** `validate_parameters`: the first parameter, in declaration order, that fails decides. */
  function Validate(ps: seq<ToolParameter>, args: map<string, Value>): Option<Error> {
    if ps == [] then None
    else if Check(ps[0], args).Some? then Check(ps[0], args)
    else Validate(ps[1..], args)
  }

  /**
   * Validation passes exactly when every parameter is accepted, and an
   * error is the one of the first parameter that is not.
   */
  lemma {:induction false} ValidateFirst(ps: seq<ToolParameter>, args: map<string, Value>)
    ensures Validate(ps, args).None? <==> forall i :: 0 <= i < |ps| ==> Check(ps[i], args).None?
    ensures Validate(ps, args).Some? ==>
      exists i :: 0 <= i < |ps| && Check(ps[i], args) == Validate(ps, args) &&
        forall j :: 0 <= j < i ==> Check(ps[j], args).None?
  {
    if ps != [] {
      ValidateFirst(ps[1..], args);
      if Check(ps[0], args).None? {
        forall i | 0 <= i < |ps| - 1 ensures ps[1..][i] == ps[i + 1] {
        }
        if Validate(ps, args).Some? {
          var k :| 0 <= k < |ps[1..]| && Check(ps[1..][k], args) == Validate(ps, args) &&
            forall j :: 0 <= j < k ==> Check(ps[1..][j], args).None?;
          assert Check(ps[k + 1], args) == Validate(ps, args);
          forall j | 0 <= j < k + 1 ensures Check(ps[j], args).None? {
            if j > 0 {
              assert ps[j] == ps[1..][j - 1];
            }
          }
        }
      }
    }
  }

  /** A required parameter with no argument, after parameters that all pass, is the one reported. */
  lemma FirstMissingReported(ps: seq<ToolParameter>, args: map<string, Value>, i: nat)
    requires i < |ps| && ps[i].required && ps[i].name !in args
    requires forall j :: 0 <= j < i ==> Accepts(ps[j], args)
    ensures Validate(ps, args) == Some(Missing(ps[i].name))
  {
    ValidateFirst(ps, args);
    forall j | 0 <= j < i ensures Check(ps[j], args).None? {
    }
    var k :| 0 <= k < |ps| && Check(ps[k], args) == Validate(ps, args) &&
      forall j :: 0 <= j < k ==> Check(ps[j], args).None?;
    assert k == i;
  }

  /** Arguments that no parameter names are ignored. */
  lemma {:induction false} ExtraIgnored(ps: seq<ToolParameter>, args: map<string, Value>, k: string, v: Value)
    requires forall i :: 0 <= i < |ps| ==> ps[i].name != k
    ensures Validate(ps, args[k := v]) == Validate(ps, args)
  {
    if ps != [] {
      assert Check(ps[0], args[k := v]) == Check(ps[0], args);
      ExtraIgnored(ps[1..], args, k, v);
    }
  }

  /** The validation loop with its early returns. */
  method ValidateParameters(tool: Tool, args: map<string, Value>) returns (valid: bool, error: Option<Error>)
    ensures error == Validate(tool.parameters, args)
    ensures valid <==> error.None?
  {
    var ps := tool.parameters;
    for i := 0 to |ps|
      invariant Validate(ps, args) == Validate(ps[i..], args)
    {
      assert ps[i..][0] == ps[i] && ps[i..][1..] == ps[i + 1..];
      var e := Check(ps[i], args);
      if e.Some? {
        return false, e;
      }
    }
    return true, None;
  }

  // ----- execute -----

  /** What the wrapped callable does: returns a response, or raises with a message. */
  datatype Outcome<R> = Returns(response: R) | Raises(reason: string)

  /** The `ToolResponse` of `execute`: the callable's own, or an error of the tool. */
  datatype Reply<R> = Invalid(error: Error) | Returned(response: R) | ExecutionFailed(reason: string) | NotImplemented

  /**
   * `execute`: invalid arguments are answered with the validation error and
   * the callable is not called; a tool without a callable is not
   * implemented; an exception becomes an execution failure.
   */
  method Execute<R>(tool: Tool, args: map<string, Value>, run: Option<map<string, Value> -> Outcome<R>>)
    returns (reply: Reply<R>, called: bool)
    ensures called <==> Validate(tool.parameters, args).None? && run.Some?
    ensures Validate(tool.parameters, args).Some? ==> reply == Invalid(Validate(tool.parameters, args).value)
    ensures Validate(tool.parameters, args).None? && run.None? ==> reply == NotImplemented
    ensures called && run.value(args).Returns? ==> reply == Returned(run.value(args).response)
    ensures called && run.value(args).Raises? ==> reply == ExecutionFailed(run.value(args).reason)
  {
    var valid, error := ValidateParameters(tool, args);
    if !valid {
      return Invalid(error.value), false;
    }
    if run.None? {
      return NotImplemented, false;
    }
    called := true;
    var outcome := run.value(args);
    match outcome
    case Returns(r) => reply := Returned(r);
    case Raises(reason) => reply := ExecutionFailed(reason);
  }
}

/** `scripts/automatic_model_parameter_config.py`: the programmatic update of
    one model's sampling parameters in the model-parameters JSON file. */
module ParameterConfig {
  import opened Optional
  import opened Strings
  import opened Json

  /** The three parameters the update may set, in the order it sets them. */
  const ParamKeys: seq<string> := ["temperature", "top_p", "top_k"]

  // ---------------------------------------------------------------- supported models

  /** `str(v).lower() == "true"` for a loaded value: `str(True)` is `True`,
      a string is itself, `str(None)` is `None`, and numbers, lists and
      dictionaries never print as four letters spelling `true`. */
  predicate PrintsTrue(v: Value) {
    match v
    case Bool(b) => b
    case Str(s) => Lower(s) == "true"
    case _ => false
  }

  /** The filter of line 35 on one configuration: `params.get("supported")`
      is None for a missing key, which prints as `None`. */
  predicate SupportedEntry(params: map<string, Value>) {
    "supported" in params && PrintsTrue(params["supported"])
  }

  /** Every configuration is a dictionary; otherwise `params.get` raises. */
  predicate AllDicts(configs: map<string, Value>) {
    forall m :: m in configs ==> configs[m].Obj?
  }

  function SupportedModels(configs: map<string, Value>): (s: set<string>)
    requires AllDicts(configs)
    ensures forall m :: m in s <==> m in configs && SupportedEntry(configs[m].fields)
  {
    set m | m in configs && SupportedEntry(configs[m].fields)
  }

  /** Boolean `true` and every casing of the string `true` mark a model as
      supported; a missing key, `false` and any other value do not. */
  lemma SupportedEntrySpec(params: map<string, Value>)
    ensures SupportedEntry(params) <==>
      "supported" in params &&
      (params["supported"] == Bool(true) ||
       (params["supported"].Str? && |params["supported"].s| == 4 &&
        forall i :: 0 <= i < 4 ==> params["supported"].s[i] == "true"[i] || params["supported"].s[i] == UpperChar("true"[i])))
  {
    if "supported" in params && params["supported"].Str? {
      LowerMatches(params["supported"].s, "true");
    }
  }

  // ---------------------------------------------------------------- the update

  /** The dictionary `model_configs[model_name]['parameters']` when every
      step of that lookup succeeds. */
  function ParamsOf(configs: map<string, Value>, name: string): (r: Option<map<string, Value>>)
    ensures r.Some? <==>
      name in configs && configs[name].Obj? && "parameters" in configs[name].fields &&
      configs[name].fields["parameters"].Obj?
  {
    if name in configs && configs[name].Obj? && "parameters" in configs[name].fields then
      match configs[name].fields["parameters"]
      case Obj(p) => Some(p)
      case _ => None
    else None
  }

  /** The value line 66-68 stores under `k`: the new value when given,
      otherwise the current one, otherwise None. */
  function MergedValue(current: map<string, Value>, given: map<string, Value>, k: string): Value {
    GetOr(given, k, GetOr(current, k, Null))
  }

  /** The three assignments of lines 66-68 applied to the parameter dictionary. */
  function Merge(current: map<string, Value>, given: map<string, Value>): (m: map<string, Value>)
    ensures m.Keys == current.Keys + {"temperature", "top_p", "top_k"}
    ensures forall k :: k in current && k !in ParamKeys ==> m[k] == current[k]
    ensures forall k :: k in ParamKeys ==>
      m[k] == (if k in given then given[k] else if k in current then current[k] else Null)
  {
    current["temperature" := MergedValue(current, given, "temperature")]
           ["top_p" := MergedValue(current, given, "top_p")]
           ["top_k" := MergedValue(current, given, "top_k")]
  }

  /** Merging the same new values twice changes nothing more. */
  lemma MergeIdempotent(current: map<string, Value>, given: map<string, Value>)
    ensures Merge(Merge(current, given), given) == Merge(current, given)
  {
    var once := Merge(current, given);
    var twice := Merge(once, given);
    assert twice.Keys == once.Keys;
    forall k | k in once ensures twice[k] == once[k] {
      if k in ParamKeys {
        assert k in once;
      }
    }
  }

  /** New values not naming any of the three keys leave the current values,
      and only add `None` for those of the three that were missing. */
  lemma MergeIgnoresOtherKeys(current: map<string, Value>, given: map<string, Value>)
    requires forall k :: k in ParamKeys ==> k !in given
    ensures forall k :: k in current ==> Merge(current, given)[k] == current[k]
    ensures forall k :: k in ParamKeys && k !in current ==> Merge(current, given)[k] == Null
  {
  }

  /** The configurations after a successful update: only the parameter
      dictionary of the named model is replaced. */
  function Updated(configs: map<string, Value>, name: string, given: map<string, Value>): (c: map<string, Value>)
    requires ParamsOf(configs, name).Some?
    ensures c.Keys == configs.Keys
    ensures forall m :: m in configs && m != name ==> c[m] == configs[m]
    ensures c[name].Obj? && c[name].fields.Keys == configs[name].fields.Keys
    ensures forall k :: k in configs[name].fields && k != "parameters" ==>
      c[name].fields[k] == configs[name].fields[k]
    ensures c[name].fields["parameters"] == Obj(Merge(ParamsOf(configs, name).value, given))
  {
    var entry := configs[name].fields;
    configs[name := Obj(entry["parameters" := Obj(Merge(ParamsOf(configs, name).value, given))])]
  }

  /** Updating a model never changes which models are supported when the
      update leaves its `supported` flag alone: the flag is not one of the
      three parameter keys, and it lives beside `parameters`. */
  lemma UpdatedKeepsSupported(configs: map<string, Value>, name: string, given: map<string, Value>)
    requires AllDicts(configs) && ParamsOf(configs, name).Some?
    ensures AllDicts(Updated(configs, name, given))
    ensures SupportedModels(Updated(configs, name, given)) == SupportedModels(configs)
  {
    var c := Updated(configs, name, given);
    assert "supported" != "parameters";
    assert SupportedEntry(c[name].fields) == SupportedEntry(configs[name].fields);
  }

  /** What `model_configs[model_name]['model_name']` evaluates to after the
      save: None (`Null`) when the lookup raises. */
  function ReturnedName(configs: map<string, Value>, name: string): (r: Value)
    ensures r != Null ==>
      name in configs && configs[name].Obj? && Get(configs[name].fields, "model_name") == Some(r)
    ensures name in configs && configs[name].Obj? && "model_name" in configs[name].fields ==>
      r == configs[name].fields["model_name"]
    ensures name !in configs || !configs[name].Obj? || "model_name" !in configs[name].fields ==> r == Null
  {
    if name in configs && configs[name].Obj? && "model_name" in configs[name].fields
    then configs[name].fields["model_name"] else Null
  }

  /** The model-parameters file, as the value `json.load` reads from it. */
  class ParameterFile {
    var contents: Value

    constructor (contents: Value)
      ensures this.contents == contents
    {
      this.contents := contents;
    }

    /** configure_model_parameters. An empty `modelName` is Python's falsy
        name: the source then asks on standard input until a listed number
        is typed, and `chosen` is the supported model so picked. The result
        is the configured model's `model_name` field (`Null` for None);
        `saved` tells whether the file was written. */
    method ConfigureModelParameters(modelName: string, newParameters: Value, chosen: string)
      returns (r: Value, saved: bool)
      requires (modelName == "" && contents.Obj? && AllDicts(contents.fields) &&
                SupportedModels(contents.fields) != {}) ==> chosen in SupportedModels(contents.fields)
      modifies this
      ensures var name := if modelName == "" then chosen else modelName;
        saved <==>
          && old(contents).Obj? && AllDicts(old(contents).fields)
          && SupportedModels(old(contents).fields) != {}
          && (Truthy(newParameters) ==>
                newParameters.Obj? && ParamsOf(old(contents).fields, name).Some?)
      ensures !saved ==> r == Null && contents == old(contents)
      ensures saved && !Truthy(newParameters) ==>
        contents == old(contents) &&
        r == ReturnedName(old(contents).fields, if modelName == "" then chosen else modelName)
      ensures saved && Truthy(newParameters) ==>
        var name := if modelName == "" then chosen else modelName;
        contents == Obj(Updated(old(contents).fields, name, newParameters.fields)) &&
        r == ReturnedName(contents.fields, name)
    {
      r, saved := Null, false;
      if !contents.Obj? {
        return;
      }
      var configs := contents.fields;
      if exists m :: m in configs && !configs[m].Obj? {
        return;
      }
      var supported := set m | m in configs && SupportedEntry(configs[m].fields);
      if supported == {} {
        return;
      }
      var name := if modelName == "" then chosen else modelName;
      if Truthy(newParameters) {
        if !newParameters.Obj? || ParamsOf(configs, name).None? {
          return;
        }
        var given := newParameters.fields;
        var params := ParamsOf(configs, name).value;
        params := params["temperature" := GetOr(given, "temperature", GetOr(params, "temperature", Null))];
        params := params["top_p" := GetOr(given, "top_p", GetOr(params, "top_p", Null))];
        params := params["top_k" := GetOr(given, "top_k", GetOr(params, "top_k", Null))];
        configs := configs[name := Obj(configs[name].fields["parameters" := Obj(params)])];
        assert configs == Updated(contents.fields, name, given);
      }
      contents := Obj(configs);
      saved := true;
      r := ReturnedName(configs, name);
    }
  }
}

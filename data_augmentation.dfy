/** `scripts/data_augmentation.py`: every loaded example becomes one derived
    record whose question is a paraphrase of the original one. */
module DataAugmentation {
  import opened Optional
  import opened Json

  const Methods: set<string> := {"nltk", "spacy", "openai"}

  /** The keys augment_example reads, in the order it reads them: the
      paraphrased question first (line 69), then the dictionary literal's
      values from top to bottom. */
  const ReadKeys: seq<string> := ["input_text", "example_id", "expected_dsl_output", "complexity_level", "description"]

  /** `example` holds every key augment_example reads. */
  predicate HasReadKeys(example: map<string, Value>) {
    && "input_text" in example && "example_id" in example && "expected_dsl_output" in example
    && "complexity_level" in example && "description" in example
  }

  /** The six keys of a derived record. */
  const RecordKeys: set<string> := {"example_id", "input_text", "expected_dsl_output", "complexity_level", "description", "synthetic_data"}

  /** The outcome of augment_example: the record, or the exception it raises. */
  datatype Augmented =
    | Record(fields: map<string, Value>)
    | InvalidMethod              // ValueError: not one of nltk, spacy, openai
    | NotADict                   // `example[...]` on a loaded value that is not a dictionary
    | MissingKey(key: string)     // KeyError for the first key read that is absent

  /** `f"{v}_augmented"`: a string is formatted as itself, any other value
      as `show` prints it. */
  function IdText(v: Value, show: Value -> string): string {
    if v.Str? then v.s else show(v)
  }

  /** The position of the first of `keys` missing from `example`, or
      `|keys|` when all are present. */
  function FirstMissing(example: map<string, Value>, keys: seq<string>): (r: nat)
    ensures r <= |keys|
    ensures forall j :: 0 <= j < r ==> keys[j] in example
    ensures r < |keys| ==> keys[r] !in example
  {
    if keys == [] then 0
    else if keys[0] !in example then 0
    else 1 + FirstMissing(example, keys[1..])
  }

  lemma AllReadKeys(example: map<string, Value>)
    ensures FirstMissing(example, ReadKeys) == |ReadKeys| <==> HasReadKeys(example)
  {
    var r := FirstMissing(example, ReadKeys);
    if r == |ReadKeys| {
      assert ReadKeys[0] in example && ReadKeys[1] in example && ReadKeys[2] in example;
      assert ReadKeys[3] in example && ReadKeys[4] in example;
    }
  }

  /** augment_example. `paraphrase(methodName, text)` is the paraphraser the
      method names (WordNet synonyms, spaCy tokens or the OpenAI API). */
  function AugmentExample(example: Value, methodName: string, paraphrase: (string, Value) -> Value,
                          show: Value -> string): (a: Augmented)
    ensures a == InvalidMethod <==> methodName !in Methods
    ensures a == NotADict <==> methodName in Methods && !example.Obj?
    ensures a.MissingKey? ==>
      && methodName in Methods && example.Obj?
      && exists i :: (0 <= i < |ReadKeys| && a.key == ReadKeys[i] && a.key !in example.fields &&
                     forall j :: 0 <= j < i ==> ReadKeys[j] in example.fields)
    ensures a.Record? <==>
      methodName in Methods && example.Obj? && HasReadKeys(example.fields)
  {
    if methodName !in Methods then InvalidMethod
    else if !example.Obj? then NotADict
    else
      var e := example.fields;
      var missing := FirstMissing(e, ReadKeys);
      AllReadKeys(e);
      if missing < |ReadKeys| then MissingKey(ReadKeys[missing])
      else
        Record(map[
          "example_id" := Str(IdText(e["example_id"], show) + "_augmented"),
          "input_text" := paraphrase(methodName, e["input_text"]),
          "expected_dsl_output" := e["expected_dsl_output"],
          "complexity_level" := e["complexity_level"],
          "description" := e["description"],
          "synthetic_data" := Bool(true)])
  }

  /** A derived record has exactly the six keys; its id is the original id
      followed by `_augmented`; its question is the paraphrase of the
      original question; the answer, complexity level and description are
      copied; and it is marked synthetic. */
  lemma RecordSpec(example: Value, methodName: string, paraphrase: (string, Value) -> Value, show: Value -> string)
    requires AugmentExample(example, methodName, paraphrase, show).Record?
    ensures var r := AugmentExample(example, methodName, paraphrase, show).fields;
      && r.Keys == RecordKeys
      && r["example_id"] == Str(IdText(example.fields["example_id"], show) + "_augmented")
      && r["input_text"] == paraphrase(methodName, example.fields["input_text"])
      && r["expected_dsl_output"] == example.fields["expected_dsl_output"]
      && r["complexity_level"] == example.fields["complexity_level"]
      && r["description"] == example.fields["description"]
      && r["synthetic_data"] == Bool(true)
  {
    assert FirstMissing(example.fields, ReadKeys) == |ReadKeys|;
  }

  /** An unknown method is reported before the example is looked at. */
  lemma InvalidMethodFirst(example: Value, methodName: string, paraphrase: (string, Value) -> Value, show: Value -> string)
    requires methodName !in Methods
    ensures AugmentExample(example, methodName, paraphrase, show) == InvalidMethod
  {
  }

  /** A record for a string id: the id gains the suffix, nothing else. */
  lemma StringIdSuffix(example: Value, methodName: string, paraphrase: (string, Value) -> Value, show: Value -> string)
    requires AugmentExample(example, methodName, paraphrase, show).Record?
    requires example.fields["example_id"].Str?
    ensures var r := AugmentExample(example, methodName, paraphrase, show).fields;
      r["example_id"].Str? && r["example_id"].s == example.fields["example_id"].s + "_augmented"
  {
    RecordSpec(example, methodName, paraphrase, show);
  }

  /** augment_data's loop over `simple_examples + complex_examples`. The
      first exception ends it, and nothing is saved (`None`); otherwise the
      saved list holds one record per example, simple ones first, each in
      its original order. */
  method AugmentData(simple: seq<Value>, complex: seq<Value>, methodName: string,
                     paraphrase: (string, Value) -> Value, show: Value -> string)
    returns (saved: Option<seq<Value>>)
    ensures var all := simple + complex;
      saved.Some? <==> forall i :: 0 <= i < |all| ==> AugmentExample(all[i], methodName, paraphrase, show).Record?
    ensures saved.Some? ==>
      && |saved.value| == |simple| + |complex|
      && (forall i :: 0 <= i < |simple| ==>
            AugmentExample(simple[i], methodName, paraphrase, show).Record? &&
            saved.value[i] == Obj(AugmentExample(simple[i], methodName, paraphrase, show).fields))
      && (forall i :: 0 <= i < |complex| ==>
            AugmentExample(complex[i], methodName, paraphrase, show).Record? &&
            saved.value[|simple| + i] == Obj(AugmentExample(complex[i], methodName, paraphrase, show).fields))
  {
    var all := simple + complex;
    var augmented: seq<Value> := [];
    var i := 0;
    while i < |all|
      invariant 0 <= i <= |all|
      invariant |augmented| == i
      invariant forall j :: 0 <= j < i ==> AugmentExample(all[j], methodName, paraphrase, show).Record?
      invariant forall j :: 0 <= j < i ==> augmented[j] == Obj(AugmentExample(all[j], methodName, paraphrase, show).fields)
    {
      var a := AugmentExample(all[i], methodName, paraphrase, show);
      if !a.Record? {
        return None;
      }
      augmented := augmented + [Obj(a.fields)];
      i := i + 1;
    }
    assert forall j :: 0 <= j < |simple| ==> all[j] == simple[j];
    assert forall j :: 0 <= j < |complex| ==> all[|simple| + j] == complex[j];
    return Some(augmented);
  }
}

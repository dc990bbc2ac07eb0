# Text-to-DSL tooling and sensor-DSL visitor, modelled in Dafny

This project models the data-handling core of a text-to-DSL experiment
repository, together with the sensor DSL's semantic visitor:

- the best-result table: one winning entry per model by (accuracy, BLEU),
  the leaderboard sort and the CSV row projection;
- the chain-of-thought removal: `<think>` spans deleted, each output cut from
  its first `CREATE` to its last `;`, and the output path;
- the cleaning of the results table: model names and parameter strings;
- the programmatic update of a model's generation parameters in the
  model-parameters file;
- data augmentation: every example becomes a paraphrased record marked
  synthetic;
- the few-shot prompt assembled by the message builder;
- the sensor DSL's `Sensor` class and the visitor rules that:
  - create sensor groups, dimensions and ranges;
  - attach spatial and categorical dimensions to a sensor;
  - read measurement options;
  - set the map box and the deployment properties.

Modules and files:

| file | module | what it holds |
|---|---|---|
| optional.dfy | Optional | `Option` |
| json.dfy | Json | loaded JSON values and Python truthiness |
| strings.dfy | Strings | `str.replace`, `find`/`rfind`, `strip`, ASCII `lower`/`upper`, the character-class regex replace, `split`/`join`, decimal text |
| best_results.dfy | BestResults | `scripts/generate_best_results.py` |
| remove_cot.dfy | RemoveCoT | `remove_CoT.py` |
| clean_table.dfy | CleanTable | `scripts/clean_table.py` |
| parameter_config.dfy | ParameterConfig | `scripts/automatic_model_parameter_config.py` (class `ParameterFile`) |
| data_augmentation.dfy | DataAugmentation | `scripts/data_augmentation.py` |
| message_builder.dfy | MessageBuilder | `scripts/message_builder.py` |
| sensor.dfy | Sensors | `Sensor.js` (class `Sensor`) |
| store.dfy | SensorStore | the visitor's store as a class of maps and lists, and `[...new Set(...)]` |
| sensor_rules.dfy | SensorRules | what each visitor rule computes, as functions, with their lemmas |
| sensor_visitor.dfy | SensorVisitor | the visitor rules as methods of class `Visitor` that update the store and the current sensor |

The imperative parts stay imperative:
- The leaderboard sort is an insertion sort on an `array`.
- The chain-of-thought loop rewrites an `array` of entries in place.
- The parameter file, the sensor and the store are classes whose methods
  update their fields.
- Every cursor loop of the visitor is a `while` loop.

Each method is proved against a function of its inputs and of the old
state, and the source's promises are proved as lemmas about those
functions. In the visitor, `node[i]` stands for
`ctx.getChild(i).getText()`, and the child counts that the DSL's grammar
guarantees are preconditions.

## Model

| member | source | states |
|---|---|---|
| BestResults.BestIndex | scripts/generate_best_results.py:55-66 | the index the selection loop ends with lies inside the entry list |
| BestResults.BestIndexIsFirstUnbeaten | scripts/generate_best_results.py:55-66 | the selected entry is beaten by no entry on (accuracy, BLEU) and strictly beats every earlier entry |
| BestResults.FirstUnbeatenUnique | scripts/generate_best_results.py:55-66 | at most one position has that property, so it fixes the winner |
| BestResults.TieKeepsEarliest | scripts/generate_best_results.py:63-66 | on a full tie of both scores the earliest entry wins |
| BestResults.SelectBest | scripts/generate_best_results.py:55-68 | the loop finds no winner exactly for an empty file; otherwise the winner is the entry at the selection index and no entry beats it |
| BestResults.WinnersAppend | scripts/generate_best_results.py:46-76 | files contribute winners independently and in listing order |
| BestResults.WinnersSingle | scripts/generate_best_results.py:46-73 | a non-`.json` or empty file adds nothing; a `.json` file with entries adds one winner named after the file with `.json` removed |
| BestResults.InsertDescSorted | scripts/generate_best_results.py:79-82 | inserting into a descending list keeps it descending |
| BestResults.InsertDescStable | scripts/generate_best_results.py:79-82 | insertion keeps, among rows with equal scores, the order in which they were listed |
| BestResults.SortDescSorted | scripts/generate_best_results.py:79-82 | the leaderboard is ordered by (accuracy, BLEU), highest first |
| BestResults.SortDescPermutation | scripts/generate_best_results.py:79-82 | the leaderboard holds exactly the winners (same multiset) |
| BestResults.SortDescStable | scripts/generate_best_results.py:79-82 | the sort is stable: rows sharing a score pair keep their listing order |
| BestResults.InsertDescAt | scripts/generate_best_results.py:79-82 | an insertion lands behind the last row, from the back, that is not below it |
| BestResults.InsertInPlace | scripts/generate_best_results.py:79-82 | the in-place shift inserts the element into the sorted prefix and leaves the rest of the array alone |
| BestResults.SortLeaderboard | scripts/generate_best_results.py:79-82 | the in-place sort leaves the array equal to the stable descending sort of its old contents |
| BestResults.Row | scripts/generate_best_results.py:109-115 | a row has the nine columns in header order: model name, `json.dumps` of the parameters (`{}` when absent), the two scores, and blanks for absent fields |
| BestResults.Rows | scripts/generate_best_results.py:107-116 | one row per leaderboard entry, in order |
| BestResults.CollectWinners | scripts/generate_best_results.py:46-76 | the outer loop gathers exactly the winners of the listing, in order |
| BestResults.WriteRows | scripts/generate_best_results.py:107-116 | the write loop produces the rows of the sorted array |
| BestResults.GenerateBestResultsTable | scripts/generate_best_results.py:40-116 | a missing directory writes nothing; no winners writes nothing; otherwise the table is the header and the rows of the sorted winners |
| RemoveCoT.StripThinkNoClose | remove_CoT.py:17 | text with no `</think>` passes unchanged, even with an unclosed `<think>` |
| RemoveCoT.StripThinkPlainPrefix | remove_CoT.py:17 | text with no `<` is kept in front of the rest |
| RemoveCoT.StripThinkSpan | remove_CoT.py:17 | a `<think>` … `</think>` span is deleted up to the nearest closing tag, line breaks included |
| RemoveCoT.TrimFound | remove_CoT.py:20-33 | the cut runs from the first `CREATE` to the last `;` of its tail, so it starts with `CREATE` and ends with `;` |
| RemoveCoT.TrimToStatementSpec | remove_CoT.py:19-33 | the cut succeeds iff `CREATE` occurs with a `;` at or after it; the result is the original text from the first `CREATE` to the last `;` |
| RemoveCoT.ProcessedSpec | remove_CoT.py:11-36 | only `generated_dsl_output` can change, to the cut of its think-stripped value, and entries without it stay as they are |
| RemoveCoT.ProcessEntries | remove_CoT.py:11-36 | the loop rewrites every entry when no output is a non-string; otherwise it stops at the first such entry, with the earlier ones rewritten and the later ones untouched |
| RemoveCoT.SplitExtSpec | remove_CoT.py:39 | the base and the extension concatenate to the path; the extension is empty or a single dotted suffix without `/` |
| RemoveCoT.OutputPathSpec | remove_CoT.py:39-40 | the output path is the input path with `_processed` before the extension, never the input path itself |
| RemoveCoT.ProcessJson | remove_CoT.py:5-44 | the entries are processed in place and saved to the output path exactly when none raised |
| CleanTable.CleanModelNameSpec | scripts/clean_table.py:5-10 | a cleaned name holds no `_`, no leading or trailing whitespace, and no `full precision` |
| CleanTable.NoUnderscoreBeforeShorten | scripts/clean_table.py:6-8 | no underscore survives the first three steps |
| CleanTable.ShortenedHasNoPhrase | scripts/clean_table.py:9 | shortening leaves no `full precision` behind |
| CleanTable.ShortenedEdges | scripts/clean_table.py:9 | shortening keeps a stripped name stripped |
| CleanTable.ThreeWordsSpaced | scripts/clean_table.py:6-8 | `m_u_w` becomes `m u w` for words with no `_`, `q` or `v` |
| CleanTable.FullPrecisionShortened | scripts/clean_table.py:5-10 | any name holding `full_precision`, wherever it stands and whatever surrounds it, holds `fp` once cleaned |
| CleanTable.WordsSpacedAt | scripts/clean_table.py:7 | the underscore between two underscore-free words becomes a space at the same place |
| CleanTable.FullPrecisionSuffix | scripts/clean_table.py:5-10 | the exact result for a plain stem: a name ending in `_full_precision` is cleaned to the stem followed by ` fp` |
| CleanTable.Requote | scripts/clean_table.py:14 | the length is kept, every `'` becomes `"` and every other character stays as it is, so no `'` remains |
| Strings.ReplaceOneChar | scripts/clean_table.py:7 | replacing a one-character string by another maps the text character by character |
| Strings.ReplaceOneCharAppend | scripts/clean_table.py:7 | a one-character replacement distributes over concatenation |
| Strings.ReplaceKeepsOccurrence | scripts/clean_table.py:6-8 | replacing a pattern that cannot overlap another text keeps an occurrence of that text |
| Strings.ReplaceProducesRep | scripts/clean_table.py:9 | a text holding the pattern holds the replacement once replaced |
| Strings.StripKeepsOccurrence | scripts/clean_table.py:8 | stripping keeps an occurrence of a text with non-whitespace ends |
| CleanTable.FormatParameters | scripts/clean_table.py:12-18 | `Invalid Params` exactly when decoding fails; an error escapes exactly when the decoded value is not a dictionary; otherwise the text shows `top_k`, `top_p` and `temperature` |
| CleanTable.ParamTextOnlyThreeKeys | scripts/clean_table.py:15 | the text depends only on the three keys |
| CleanTable.ParamTextAllMissing | scripts/clean_table.py:15 | with none of the keys it is `top_k: N/A, top_p: N/A, t: N/A` |
| ParameterConfig.SupportedModels | scripts/automatic_model_parameter_config.py:35 | a model is supported iff its configuration's `supported` value prints as `true` in any case |
| ParameterConfig.SupportedEntrySpec | scripts/automatic_model_parameter_config.py:35 | that is the boolean `true` or a four-letter string spelling `true` in any mix of cases |
| ParameterConfig.ParamsOf | scripts/automatic_model_parameter_config.py:66-68 | the parameter dictionary is found iff the model exists, is a dictionary and has a dictionary under `parameters` |
| ParameterConfig.Merge | scripts/automatic_model_parameter_config.py:66-68 | the three keys are set to the new value when given, else to the current one, else to `None`; other keys stay |
| ParameterConfig.MergeIdempotent | scripts/automatic_model_parameter_config.py:66-68 | applying the same update twice changes nothing more |
| ParameterConfig.MergeIgnoresOtherKeys | scripts/automatic_model_parameter_config.py:66-68 | new values naming none of the three keys keep the current values |
| ParameterConfig.Updated | scripts/automatic_model_parameter_config.py:65-68 | only the chosen model's `parameters` change, to the merge |
| ParameterConfig.UpdatedKeepsSupported | scripts/automatic_model_parameter_config.py:35-68 | an update never changes which models are supported |
| ParameterConfig.ReturnedName | scripts/automatic_model_parameter_config.py:77 | the model's `model_name` field when the model is a dictionary holding it, and `None` (the lookup raised) exactly otherwise |
| ParameterConfig.ParameterFile.ConfigureModelParameters | scripts/automatic_model_parameter_config.py:27-81 | the file is written iff the configurations are dictionaries, some model is supported and, with new parameters, the model's parameters are found; a failure returns `None` and leaves the file; with new parameters the file holds the configurations with that model's parameters merged, without them it is rewritten unchanged; the result is the model's `model_name` |
| DataAugmentation.FirstMissing | scripts/data_augmentation.py:68-84 | the position of the first key that is read but absent, and every key before it is present |
| DataAugmentation.AugmentExample | scripts/data_augmentation.py:58-85 | an invalid method raises first; a non-dictionary raises next; a missing key raises `KeyError` for the first absent key in reading order; a record is built iff none of these happens |
| DataAugmentation.RecordSpec | scripts/data_augmentation.py:77-85 | the record has exactly the six keys: id plus `_augmented`, the paraphrased question, the copied answer, complexity and description, and `synthetic_data` true |
| DataAugmentation.InvalidMethodFirst | scripts/data_augmentation.py:68-75 | an unknown method is reported whatever the example is |
| DataAugmentation.StringIdSuffix | scripts/data_augmentation.py:78 | a string id just gains the `_augmented` suffix |
| DataAugmentation.AugmentData | scripts/data_augmentation.py:42-56 | something is saved iff every example augments; the list then holds one record per example, simple ones first, each group in order |
| MessageBuilder.ShotOf | scripts/message_builder.py:30-31 | an example contributes its question and answer iff it is a dictionary with both keys |
| MessageBuilder.Shots | scripts/message_builder.py:28-31 | one formatted pair per example, in order |
| MessageBuilder.BlocksAppend | scripts/message_builder.py:28-31 | the numbering carries on across concatenated example lists |
| MessageBuilder.BlockAt | scripts/message_builder.py:28-31 | example `i` (from 0) is written as block `i + 1`, between the blocks before and after it |
| MessageBuilder.MessageFrame | scripts/message_builder.py:20-35 | the message starts with the rules title, the grammar, a blank line and the separator, and ends with the target title and the example |
| MessageBuilder.ExamplesIffShots | scripts/message_builder.py:26-27 | the examples title follows the separator iff there are few-shot examples |
| MessageBuilder.AppendExample | scripts/message_builder.py:29-31 | one loop turn appends the numbered block, or fails iff the example lacks a field |
| MessageBuilder.AppendExamples | scripts/message_builder.py:28-31 | the loop appends all numbered blocks, or fails iff some example lacks a field |
| MessageBuilder.BuildMessage | scripts/message_builder.py:19-38 | the printed message is the header, the examples section and the target; nothing is printed iff some example lacks a field |
| Strings.Lower | validator/node_modules/@lbdudc/sensor-dsl/src/spl/Sensor.js:9-10 | lower-casing keeps the length and maps every character through the ASCII lower-case map |
| Strings.Split | validator/node_modules/@lbdudc/sensor-dsl/src/SensorVisitor.js:766-767 | there is at least one piece and no piece holds the separator |
| Strings.SplitJoin | validator/node_modules/@lbdudc/sensor-dsl/src/SensorVisitor.js:766-767 | joining the pieces with the separator gives the text back |
| Sensors.IntervalOrDefault | validator/node_modules/@lbdudc/sensor-dsl/src/spl/Sensor.js:11 | the interval is kept when non-zero, and otherwise (0 or NaN) it is 1000 |
| Sensors.GeometryOrDefault | validator/node_modules/@lbdudc/sensor-dsl/src/spl/Sensor.js:14 | the geometry is kept when non-empty, else it is `Point` |
| Sensors.DerivedNames | validator/node_modules/@lbdudc/sensor-dsl/src/spl/Sensor.js:8-13 | the entity names start with the id as written, and the map and layer names with the id lower-cased, so ids differing only in case share a map |
| Sensors.Sensor.constructor | validator/node_modules/@lbdudc/sensor-dsl/src/spl/Sensor.js:2-17 | every field is derived from the arguments as the constructor writes it, and both lists start empty |
| Sensors.Sensor.AddDimension | validator/node_modules/@lbdudc/sensor-dsl/src/spl/Sensor.js:19-21 | exactly one dimension is appended and the measures stay |
| Sensors.Sensor.AddMeasureData | validator/node_modules/@lbdudc/sensor-dsl/src/spl/Sensor.js:23-25 | exactly one measure is appended and the dimensions stay |
| Sensors.NewSensor | validator/node_modules/@lbdudc/sensor-dsl/src/spl/Sensor.js:2-17 | no sensor is built iff the id is empty; otherwise a fresh sensor with the derived fields |
| SensorRules.GroupMembersSpec | validator/node_modules/@lbdudc/sensor-dsl/src/SensorVisitor.js:59-66 | member `k` is child `3 + 2k`, and no member is `;` |
| SensorRules.GroupMembersStop | validator/node_modules/@lbdudc/sensor-dsl/src/SensorVisitor.js:61-63 | the scan stops at the end of the children or at the first `;` it reaches |
| SensorVisitor.Visitor.VisitCreateSensorGroup | validator/node_modules/@lbdudc/sensor-dsl/src/SensorVisitor.js:56-69 | exactly one group is appended, named by child 1 with those members, and nothing else in the store changes |
| SensorRules.Capitalized | validator/node_modules/@lbdudc/sensor-dsl/src/SensorVisitor.js:83-85 | the length is kept, the first character is upper-cased and the rest lower-cased |
| SensorRules.CapitalizedIgnoresCase | validator/node_modules/@lbdudc/sensor-dsl/src/SensorVisitor.js:83-85 | the casing the type is written in does not matter, and a normalised type stays as it is |
| SensorRules.KeywordsInAnyCase | validator/node_modules/@lbdudc/sensor-dsl/src/SensorVisitor.js:79-80 | the `GEOMETRY` and `CATEGORICAL` checks accept exactly those words in any mix of cases |
| SensorRules.DimPropOf | validator/node_modules/@lbdudc/sensor-dsl/src/SensorVisitor.js:121-133 | the property has child 0 as id and child 1 as type, and a display string (child 2) iff there are three children |
| SensorRules.AddDimProp | validator/node_modules/@lbdudc/sensor-dsl/src/SensorVisitor.js:146 | only the named dimension changes, gaining the property at the end |
| SensorVisitor.Visitor.VisitDimPropertyDefinition | validator/node_modules/@lbdudc/sensor-dsl/src/SensorVisitor.js:120-148 | the current dimension gains that property and nothing else in the store changes |
| SensorVisitor.Visitor.VisitDimProperties | validator/node_modules/@lbdudc/sensor-dsl/src/SensorVisitor.js:91-115 | visiting the property children appends their properties in order to the current dimension |
| SensorVisitor.Visitor.VisitCreateSpatialDimension | validator/node_modules/@lbdudc/sensor-dsl/src/SensorVisitor.js:72-94 | an existing name throws and changes nothing; a child 4 other than `GEOMETRY` throws and changes nothing; otherwise the dimension is added with the normalised geometry type and its properties, and the current dimension and entity are cleared |
| SensorVisitor.Visitor.VisitCreateCategoricalDimension | validator/node_modules/@lbdudc/sensor-dsl/src/SensorVisitor.js:100-118 | the same checks with `CATEGORICAL` on child 0; the dimension is added with field child 6 and its properties; only the current dimension is cleared |
| SensorRules.Unquoted | validator/node_modules/@lbdudc/sensor-dsl/src/SensorVisitor.js:204 | no `'` or `"` remains, and the text does not grow |
| SensorRules.UnquotedAppend | validator/node_modules/@lbdudc/sensor-dsl/src/SensorVisitor.js:204 | quotes are removed piece by piece: unquoting distributes over concatenation |
| SensorRules.UnquotedFixedPoint | validator/node_modules/@lbdudc/sensor-dsl/src/SensorVisitor.js:204 | a text is left unchanged exactly when it holds no quote, so only quotes are removed |
| SensorRules.UnquotedQuoted | validator/node_modules/@lbdudc/sensor-dsl/src/SensorVisitor.js:204 | a quote-free label between two quotes loses exactly the two quotes |
| SensorRules.RangePropOf | validator/node_modules/@lbdudc/sensor-dsl/src/SensorVisitor.js:196-234 | with `TO`: min, max and the unquoted label from child 4, colour iff 7 children; without: value and label from child 2, colour iff 5 children; the style is named range id + `-` + label, coloured `#808080` by default |
| SensorVisitor.Visitor.VisitRangeProperty | validator/node_modules/@lbdudc/sensor-dsl/src/SensorVisitor.js:193-238 | the current range gains exactly that property and nothing else changes |
| SensorRules.FindDimension | validator/node_modules/@lbdudc/sensor-dsl/src/SensorVisitor.js:419 | the index found is that of the first entry with the relation id, and none is found iff no entry has it |
| SensorRules.AttachSpec | validator/node_modules/@lbdudc/sensor-dsl/src/SensorVisitor.js:419-429 | one attachment appends the dimension to the relation's entities, keeps one entry for the relation, and leaves other entries as they were |
| SensorRules.MeasureStylesSpec | validator/node_modules/@lbdudc/sensor-dsl/src/SensorVisitor.js:463-467 | every measure's name is among the layer styles, a polygon-like geometry adds each name followed by `_POLYGON`, and the count is one or two styles per measure |
| SensorRules.MeasureStylesOnly | validator/node_modules/@lbdudc/sensor-dsl/src/SensorVisitor.js:463-467 | every layer style from the measures is a measure's name, or that name followed by `_POLYGON` on a polygon-like geometry |
| SensorRules.MergeLayerSpec | validator/node_modules/@lbdudc/sensor-dsl/src/SensorVisitor.js:479-491 | merged layer styles hold no repeats, lose no style, and keep a repeat-free list of existing styles first |
| SensorRules.SpatialRunEntities | validator/node_modules/@lbdudc/sensor-dsl/src/SensorVisitor.js:409-494 | an attachment that throws nothing records every listed dimension, in order, under the relation, keeps at most one entry per relation id, and leaves the other entries in place |
| SensorRules.SpatialUnknownThrows | validator/node_modules/@lbdudc/sensor-dsl/src/SensorVisitor.js:411-416 | an unknown dimension throws `Dimension … not found!` before anything changes for it |
| SensorVisitor.Visitor.LayerStyles | validator/node_modules/@lbdudc/sensor-dsl/src/SensorVisitor.js:459-467 | the layer's styles are `grayPolygon` followed by each measure's styles |
| SensorVisitor.Visitor.AttachSpatial | validator/node_modules/@lbdudc/sensor-dsl/src/SensorVisitor.js:411-491 | one loop turn changes the sensor's dimensions, the layers and the maps as the turn function says, and nothing else |
| SensorVisitor.Visitor.VisitAddSpatialDimensionToSensor | validator/node_modules/@lbdudc/sensor-dsl/src/SensorVisitor.js:404-495 | the loop from child 5, two children at a time, leaves exactly the state and the outcome of the run function |
| SensorRules.CategoricalStart | validator/node_modules/@lbdudc/sensor-dsl/src/SensorVisitor.js:501-507 | the cursor starts at child 4 with no group when child 3 is `(`, else at child 5 with child 3 as the group |
| SensorRules.Categories | validator/node_modules/@lbdudc/sensor-dsl/src/SensorVisitor.js:538-559 | one category per range property, in order, with its label; it has a `value` exactly when the property is exact (that value) and `from`/`to` exactly when it is an interval (its two bounds, as text) |
| SensorRules.CategoricalStep | validator/node_modules/@lbdudc/sensor-dsl/src/SensorVisitor.js:509-577 | an unknown dimension or range throws its message; a turn adds an entry exactly when the dimension is known, a child follows it and, after `RANGE`, the named range is known; an entry carries the dimension's field, the group and categories iff `RANGE` follows; the cursor then moves 4 on after `RANGE` and 2 on otherwise |
| SensorRules.CategoricalRunSpec | validator/node_modules/@lbdudc/sensor-dsl/src/SensorVisitor.js:509-577 | every added entry names a known dimension and carries its field and the group |
| SensorVisitor.Visitor.VisitAddCategoricalDimensionToSensor | validator/node_modules/@lbdudc/sensor-dsl/src/SensorVisitor.js:498-579 | the sensor gains exactly the run's entries in order, its measures stay, and the outcome is the run's |
| SensorRules.ScanOptionsQuoteFree | validator/node_modules/@lbdudc/sensor-dsl/src/SensorVisitor.js:596-612 | stored units, icon and range never hold a quote |
| SensorRules.ScanOptionsKeepsUnits | validator/node_modules/@lbdudc/sensor-dsl/src/SensorVisitor.js:596-612 | keys other than `UNITS` leave the units as they were |
| SensorRules.MeasureOf | validator/node_modules/@lbdudc/sensor-dsl/src/SensorVisitor.js:591-619 | the measure is named by child 0 lower-cased, typed by child 1, and carries the options read |
| SensorVisitor.Visitor.ScanMeasureOptions | validator/node_modules/@lbdudc/sensor-dsl/src/SensorVisitor.js:594-613 | the option loop gives the scan function's result, failing when a key has no value |
| SensorRules.MeasurementStyles | validator/node_modules/@lbdudc/sensor-dsl/src/SensorVisitor.js:656-740 | the custom range's style names first, in order (none without a range), then the measure's point and `_POLYGON` styles |
| SensorVisitor.Visitor.AddRangeStyles | validator/node_modules/@lbdudc/sensor-dsl/src/SensorVisitor.js:659-661 | the range properties' styles are added in order and nothing else changes |
| SensorVisitor.Visitor.VisitCreateMeasurementProperty | validator/node_modules/@lbdudc/sensor-dsl/src/SensorVisitor.js:586-757 | the current entity becomes the sensor's measurement entity; a missing option value throws before the measure is added; a missing default layer throws after it; otherwise the layer gains the measure's name and the product gains its styles |
| SensorRules.LatLonOfPair | validator/node_modules/@lbdudc/sensor-dsl/src/SensorVisitor.js:765-767 | `lat,lon` reads back as the two coordinates |
| SensorRules.BoxCenter | validator/node_modules/@lbdudc/sensor-dsl/src/SensorVisitor.js:763-771 | the coordinates and zoom come from children 4 and 7 after `[`, else from children 3 and 5 |
| SensorVisitor.Visitor.VisitAddBBXToSensor | validator/node_modules/@lbdudc/sensor-dsl/src/SensorVisitor.js:760-775 | a missing default map throws and changes nothing; otherwise only that map's centre changes |
| SensorRules.Unwrapped | validator/node_modules/@lbdudc/sensor-dsl/src/SensorVisitor.js:784-785 | the first and last characters are dropped, and a text shorter than two becomes empty |
| SensorRules.UnwrappedQuoted | validator/node_modules/@lbdudc/sensor-dsl/src/SensorVisitor.js:784-785 | unwrapping a quoted text gives the text back |
| SensorVisitor.Visitor.VisitDeploymentProperty | validator/node_modules/@lbdudc/sensor-dsl/src/SensorVisitor.js:779-787 | exactly one key/value pair, both unwrapped, is appended to the deployment properties |
| SensorStore.DedupSpec | validator/node_modules/@lbdudc/sensor-dsl/src/SensorVisitor.js:488-490 | de-duplication leaves every element once and keeps exactly the elements |
| SensorStore.DedupOfDistinct | validator/node_modules/@lbdudc/sensor-dsl/src/SensorVisitor.js:488-490 | a list without repeats is left as it is |
| SensorStore.DedupIdempotent | validator/node_modules/@lbdudc/sensor-dsl/src/SensorVisitor.js:488-490 | de-duplicating twice is de-duplicating once |
| SensorStore.DedupPrefix | validator/node_modules/@lbdudc/sensor-dsl/src/SensorVisitor.js:488-490 | first-occurrence order: the de-duplicated prefix comes first |

## Left out

- File and console I/O: reading and writing JSON and CSV files, and the directory listing. These become parameters and results: the loaded values in, the written values out.
- `json.dumps`, `json.loads`, `str()` of a value and the three paraphrasers (WordNet, spaCy, OpenAI) are function-typed parameters. Their own behaviour is not modelled.
- The interactive model choice in the parameter configuration (lines 43-62) is the `chosen` parameter: the supported model the user finally picks. The retry loop on bad input is not modelled.
- Entries of a results file lacking `overall_accuracy` or `average_bleu_score`. Such an entry raises `KeyError` once a comparison reads it (lines 61-65, when another entry of the file follows or precedes it) or once the sort key reads it as a winner (line 80); the handler of lines 121-123 then writes no table. A lone entry is never compared: when it is the empty object it is falsy at line 68, the file is reported as having no valid results (lines 74-76) and the other files' table is still written. Each modelled entry carries both scores, so it is never empty and none of these paths is modelled.
- Entries of `remove_CoT.py`'s list that are not JSON objects: `'generated_dsl_output' in entry` then raises or tests a substring (line 12). Each modelled entry is an object, so this path is not modelled.
- MessageBuilder.BuildMessage: the function prints the message between two marker lines and returns `None`. The model returns the message text; the marker lines are not part of it.
- Python dictionary order and JSON key order: JSON objects are unordered maps. This matters only for the listing of supported models, which the model does not print.
- Case mapping is ASCII only: `lower`/`upper` and `toLowerCase`/`toUpperCase` of non-ASCII characters are not modelled.
- Scores are `real` numbers that are only compared. Floating-point rounding, the `round(2)` of the cleaned table and the other pandas column work in `process_csv` are not modelled.
- Logging, configuration loading and the `__main__` blocks.
- `parseInt`, `parseFloat` and `isNaN`: the sensor interval is given as an optional integer (`None` for NaN), and category bounds are kept as the text written.
- `store.js`, `Product.js`, `Map.js` and `SensorVisitorHelper.js` are not part of this model. The store is a class of maps and lists, keyed by id. Product layers are kept as their style lists, maps as their centre and layers, and styles as their names.
- The entity work of the visitor is not modelled: `addProperty`, `getPropertyParams` and the relationships added between entities. A `null` current entity is not modelled either.
- Layers built by the spatial attachment are assumed to start without available styles. This is why their style list begins with `grayPolygon`.
- A value that JavaScript leaves `undefined` is `None` or the empty text. A dimension's geometry type or field read from the other kind of dimension is one example.
- The ANTLR parser: parse nodes are sequences of child texts. The child counts the grammar guarantees are preconditions. The children a dimension rule visits are passed as its property nodes.
- The StaticIntervalsStyle objects a measurement adds are kept by name only. Their intervals and colours are not modelled.
- The DSL text that throws in the visitor: a thrown value is an `Outcome` carrying its message, and everything already changed stays changed. A `TypeError` from a missing map, layer or child keeps only its name.

# php-serializer in Dafny

A Dafny model of the core of the PHP library `byjg/php-serializer`. The model covers four parts:

- **Normalisation.** `Serialize` (and the older `SerializerObject`) turn a PHP object graph into nested ordered arrays. Several settings apply: stop at the first level, strings only, a do-not-parse class list, whether null values are kept, an ignore list, and the getter prefix and name pattern used for protected and private properties.
- **Copy and bind.** `ObjectCopy::copy` and `BinderObject::bind` write a source's first level into a target object by three tiers: a setter, then a direct assignment, then a case-insensitive match against the class's declared properties. The case-insensitive match goes through a per-class cache.
- **Name mappings.** The property handlers (`DirectTransform`, `PropertyNameMapper`, `CamelToSnakeCase`, `SnakeToCamelCase`) and the property patterns (`CamelToSnakeCase`, `SnakeToCamelCase`, `DifferentTargetProperty`) rename properties.
- **Formatters.** The plain-text, CSV and XML formatters walk the normalised array.

PHP values are the datatype `PhpValue.Value`. A PHP array is an ordered list of (key, value) entries. Assigning to an array (`$a[$k] = $v`) is `PhpValue.Put`: an existing key keeps its position and a new key is appended. `unset` is `PhpValue.Remove`.

Each recursive walk has two parts:

- A specification function. It is a left fold over a prefix of the entries, for example `Normalization.Normalize` and `Normalization.ArrayEntries`.
- An imperative class that mirrors the PHP class: `Serialize.Serializer`, `SerializerObjectModel.SerializerObject`, the plain-text and XML formatter classes and `BinderObjectModel.BinderObject`. Its loops are proved against that function. The CSV formatter keeps no settings, so it is modelled by module-level methods (`CsvFormatterModel.Process`, `CsvFormatterModel.ProcessArray`).

An object's conversion has a reference definition too. `NormalizeFacts.Offered` says what each property offers: a public one its own value under its own name, a hidden one its getter's result under the cleaned name. `NormalizeFacts.Assignments` lists the assignments the properties make, in declaration order, after the ignore list, the callback and the null check. `PhpValue.PutAll` makes them one after another into an empty array, so a later property that publishes a name already used overwrites that value in place.

The objects that copy and bind write into are instances of the class `Targets.PhpObject`. They are updated in place.

Where the code and the library's own description differ, the model follows the code:

- CSV rows are written with each row's values in that row's own order (`array_values`), not in the header's key order.
- In XML, only an array value under a numeric key gets the list element name. A scalar under a numeric key is written under the key itself.
- Keys are never re-packed after an entry is dropped: every PHP array keeps its original keys.
- The snake-case handler does not split every acronym. It splits a run of two or more capitals before its last capital only when the run starts the name, or follows a lower-case letter that no earlier match of its scan took, and a lower-case letter follows the run. So "ABcDEf" gives "a_bc_def" and "a_XMLHttp" gives "a_xmlhttp" (`PropertyHandler.CamelToSnakeRunAfterMatch`, `PropertyHandler.CamelToSnakeRunAfterUnderscore`).

## Model

| member | source | states |
|---|---|---|
| Text.LowerChar | src/ObjectCopy.php:79 | `strtolower` on one character: the result is never a capital, a capital becomes a lower-case letter, any other character is kept |
| Text.IntToDecRoundTrip | src/Serialize.php:126 | the decimal string PHP makes of an integer reads back as that integer |
| PhpValue.ScalarText | src/Serialize.php:125-127 | `"$v"`: null and false give "", true gives "1", an integer its decimal form, a string itself |
| PhpValue.Put | src/Serialize.php:162 | after `$a[$k] = $v` the key maps to the value; a key not yet present is appended at the end |
| PhpValue.PutShape | src/SerializerObject.php:108 | assigning to a present key keeps the length and every entry's key and position; other entries unchanged |
| PhpValue.PutKeys | src/Serialize.php:162 | after an assignment the keys are the old keys plus the assigned one, no more |
| PhpValue.PutOther | src/ObjectCopy.php:64 | an assignment leaves the value under every other key unchanged |
| PhpValue.PutKeepsUnique | src/Serialize.php:162 | assignment keeps the keys of an array distinct |
| PhpValue.Remove | src/Serialize.php:165 | after `unset` the key is absent, every remaining entry was already there, every entry under another key stays, and an absent key changes nothing |
| PhpValue.RemoveKeepsUnique | src/Serialize.php:165 | `unset` keeps the keys of an array distinct |
| PhpValue.RemoveAppended | src/Serialize.php:162-166 | assigning a fresh key and unsetting it again gives back the array unchanged |
| PhpValue.RemoveAppend | src/Serialize.php:165 | `unset` works entry by entry: what stays of a concatenation is what stays of each part, in order |
| PhpValue.RemoveSingle | src/Serialize.php:165 | a single entry stays exactly when it is not under the key |
| PhpValue.RemoveAt | src/Serialize.php:165 | in an array with distinct keys, `unset` takes out the one entry under the key and keeps all others in their order |
| PhpValue.LastValue | src/Serialize.php:243 | for a run of assignments: no value exactly when the key is never assigned, otherwise the value of the last assignment under it |
| PhpValue.FirstKeys | src/Serialize.php:243 | the keys of a run each once, and no other |
| PhpValue.PutAllGet | src/Serialize.php:243 | after a run of assignments each key holds the value of its last assignment |
| PhpValue.PutAllKeys | src/Serialize.php:243 | after a run of assignments the keys come in the order of their first assignment |
| PhpValue.PutAllDistinct | src/Serialize.php:243 | assignments under distinct keys leave exactly the array they list |
| PhpValue.FindMethod | src/Serialize.php:215 | `method_exists`: a method is found exactly when one has the name up to ASCII case |
| NameCase.AcronymMatch | src/PropertyHandler/CamelToSnakeCase.php:18 | a match of `(^\|[a-z])([A-Z]+)([A-Z][a-z])` ends in a capital followed by a lower-case letter |
| NameCase.AcronymPassStrip | src/PropertyHandler/CamelToSnakeCase.php:17-23 | the acronym rewrite changes nothing but letter case and inserted underscores |
| NameCase.CamelBoundaryStrip | src/PropertyHandler/CamelToSnakeCase.php:25-31 | the camel-boundary rewrite changes nothing but letter case and inserted underscores |
| NameCase.AcronymPassNoAcronym | src/PropertyHandler/CamelToSnakeCase.php:17-23 | a name without two capitals in a row is left alone by the acronym rewrite |
| NameCase.CamelBoundaryNoUpper | src/PropertyHandler/CamelToSnakeCase.php:25-31 | a name without capitals is left alone by the camel-boundary rewrite |
| NameCase.UnderscoreLetterLength | src/PropertyHandler/SnakeToCamelCase.php:15-21 | the `_x` to `X` rewrite shortens a lower-case name by one character per capital it produces |
| NameCase.UnderscoreLetterNoUnderscore | src/PropertyHandler/SnakeToCamelCase.php:15-21 | a name without `_` is left alone by the `_x` to `X` rewrite |
| NameCase.UnderscoreLetterAppend | src/PropertyHandler/SnakeToCamelCase.php:16 | the `_x` rewrite works piecewise across a cut that does not follow an underscore |
| NameCase.UnderscoreLetterThenUpperToUnderscore | src/PropertyPattern/SnakeToCamelCase.php:10-16 | on a name without capitals, `_x` to `X` followed by `X` to `_x` gives back the name |
| NameCase.UnderscoreLetterNoPair | src/PropertyHandler/SnakeToCamelCase.php:15-20 | after the `_x` to `X` rewrite no `_` stands before a lower-case letter: every such pair is rewritten and an `_` before anything else is kept |
| NameCase.UpperToUnderscoreThenUnderscoreLetterPairFree | src/PropertyHandler/SnakeToCamelCase.php:15-20 | on any name with no `_` before a lower-case letter, `X` to `_x` followed by `_x` to `X` gives back the name |
| NameCase.UpperToUnderscoreThenUnderscoreLetter | src/PropertyPattern/CamelToSnakeCase.php:9-15 | on a name without `_`, `X` to `_x` followed by `_x` to `X` gives back the name |
| NameCase.UpperToUnderscoreFacts | src/PropertyPattern/CamelToSnakeCase.php:9-15 | `X` to `_x` leaves no capital, adds one character per capital, and changes nothing without capitals |
| NameCase.SnakeCaseSplits | src/PropertyHandler/CamelToSnakeCase.php:17-31 | the acronym rewrite followed by the camel-boundary rewrite puts `_` before exactly the characters `SnakeMarks` marks, lower-casing them, and changes nothing else |
| NameCase.SnakeMarksWhere | src/PropertyHandler/CamelToSnakeCase.php:17-31 | every character the two rewrites put `_` before is a capital after a lower-case letter, or the last capital of a run of two or more that is followed by a lower-case letter |
| NameCase.SnakeMarksAtStart | src/PropertyHandler/CamelToSnakeCase.php:18-20 | a run of two or more capitals at the start of the name, followed by a lower-case letter, gets `_` before its last capital |
| NameCase.SnakeMarksAfterLower | src/PropertyHandler/CamelToSnakeCase.php:18-20 | a run of two or more capitals after a lower-case letter that the scan reaches (no earlier match took it), followed by a lower-case letter, gets `_` before its last capital |
| NameCase.AcronymSplitsAtStart | src/PropertyHandler/CamelToSnakeCase.php:18-20 | the acronym scan marks the last capital of a leading run of two or more that is followed by a lower-case letter |
| NameCase.AcronymSplitsAfterLower | src/PropertyHandler/CamelToSnakeCase.php:17-23 | the acronym scan marks the last capital of a run of two or more after a lower-case letter it reaches, when a lower-case letter follows the run |
| NameCase.AcronymPassNoRunAfterLower | src/PropertyHandler/CamelToSnakeCase.php:18 | capitals after neither the start of the name nor a lower-case letter (after `_` or a digit) are never split by the acronym scan |
| NameCase.AcronymPassIsSplit | src/PropertyHandler/CamelToSnakeCase.php:17-23 | the acronym rewrite puts `_` before exactly the capitals its scan marks, lower-casing them |
| NameCase.AcronymMarksPlaced | src/PropertyHandler/CamelToSnakeCase.php:18-20 | each mark of the acronym scan is the last capital of a run of at least two, followed by a lower-case letter |
| NameCase.AcronymMarksResume | src/PropertyHandler/CamelToSnakeCase.php:17-23 | where the scan resumes, what it does to the rest of the name is what a fresh scan of the rest does |
| NameCase.BoundaryOfSplit | src/PropertyHandler/CamelToSnakeCase.php:25-31 | after underscores put before capitals that a lower-case letter follows, the camel-boundary rewrite adds one before every capital right after a lower-case letter of the original name |
| NameCase.CamelBoundarySplit | src/PropertyHandler/CamelToSnakeCase.php:25-31 | a lower-case letter followed by a capital gets `_` between them and the capital lower-cased, whatever surrounds the pair |
| NameCase.CamelBoundaryNoPair | src/PropertyHandler/CamelToSnakeCase.php:25-31 | a name with no lower-case letter right before a capital is left alone by the camel-boundary rewrite |
| PropertyHandler.TransformValue | src/PropertyHandler/DirectTransform.php:39-46 | the value closure's result when one was given, the value itself otherwise |
| PropertyHandler.MapperName | src/PropertyHandler/PropertyNameMapper.php:22-25 | a listed name maps to its target, any other name to itself |
| PropertyHandler.CamelToSnake | src/PropertyHandler/CamelToSnakeCase.php:13-34 | the result is the input with `_` put before exactly the characters `SnakeMarks` marks, and everything lower-cased; so it has no capitals and, underscores aside, the input's letters lower-cased |
| PropertyHandler.SnakeToCamel | src/PropertyHandler/SnakeToCamelCase.php:13-24 | one capital per removed underscore, turning capitals back into `_x` gives the lower-cased input, and no `_` is left before a lower-case letter; together these fix the result |
| PropertyHandler.DirectTransformIsIdentity | src/PropertyHandler/DirectTransform.php:30-46 | without a closure `DirectTransform` keeps both the name and the value |
| PropertyHandler.CamelToSnakeKeepsSnake | src/PropertyHandler/CamelToSnakeCase.php:13-34 | a name without capitals comes back unchanged |
| PropertyHandler.CamelToSnakeIdempotent | src/PropertyHandler/CamelToSnakeCase.php:13-34 | mapping twice is mapping once |
| PropertyHandler.SnakeToCamelNoUnderscore | src/PropertyHandler/SnakeToCamelCase.php:20 | a name without `_` comes back lower-cased |
| PropertyHandler.CamelToSnakeExample1 | src/PropertyHandler/CamelToSnakeCase.php:25-33 | "myTest" maps to "my_test" |
| PropertyHandler.CamelToSnakeExample2 | src/PropertyHandler/CamelToSnakeCase.php:17-33 | "XMLHttpRequest" maps to "xml_http_request": the acronym is split before its last capital |
| PropertyHandler.CamelToSnakeLeadingCapital | src/PropertyHandler/CamelToSnakeCase.php:25-33 | "MyTest" maps to "my_test", with no leading underscore |
| PropertyHandler.CamelToSnakeDigits | tests/PropertyHandler/CamelToSnakeCaseTest.php:38 | "myTestMultiple1234" maps to "my_test_multiple1234": digits are kept and start no split |
| PropertyHandler.CamelToSnakeRunAfterMatch | src/PropertyHandler/CamelToSnakeCase.php:17-33 | "ABcDEf" maps to "a_bc_def": the run "DE" follows a lower-case letter the first match took, so the scan does not reach it and it is not split |
| PropertyHandler.CamelToSnakeRunAfterUnderscore | src/PropertyHandler/CamelToSnakeCase.php:17-33 | "a_XMLHttp" maps to "a_xmlhttp": a run after `_` is neither split as an acronym nor preceded by a lower-case letter |
| PropertyHandler.SnakeToCamelExample1 | src/PropertyHandler/SnakeToCamelCase.php:15-23 | "my_test" maps to "myTest" |
| PropertyHandler.SnakeToCamelExample2 | src/PropertyHandler/SnakeToCamelCase.php:15-23 | "xml_http_request" maps to "xmlHttpRequest" |
| PropertyHandler.SnakeToCamelDetermined | src/PropertyHandler/SnakeToCamelCase.php:15-20 | any name meeting `SnakeToCamel`'s contract for an input is the mapped name, so the contract states the whole rewrite |
| PropertyHandler.SnakeToCamelMixedCase | src/PropertyHandler/SnakeToCamelCase.php:15-20 | "My_Test" is lowered first and maps to "myTest" |
| PropertyHandler.SnakeToCamelKeepsUnderscore | src/PropertyHandler/SnakeToCamelCase.php:16 | an underscore before a digit is kept: "a_1" maps to "a_1" |
| PropertyPattern.CamelToSnake | src/PropertyPattern/CamelToSnakeCase.php:7-16 | no capitals in the result, one extra character per capital, a name without capitals unchanged |
| PropertyPattern.CamelSnakeRoundTrip | src/PropertyPattern/CamelToSnakeCase.php:9-15 | a name without `_` survives the snake-case pattern followed by the camel-case pattern |
| PropertyPattern.SnakeCamelRoundTrip | src/PropertyPattern/SnakeToCamelCase.php:10-16 | a name without capitals survives the camel-case pattern followed by the snake-case pattern |
| PropertyPattern.DifferentTargetRenames | src/PropertyPattern/DifferentTargetProperty.php:14-17 | a listed name maps to its target, any other name to itself |
| PropertyPattern.CamelToSnakeExample | src/PropertyPattern/CamelToSnakeCase.php:9-15 | "idModel" maps to "id_model" |
| PropertyPattern.CamelToSnakeLeadingCapital | src/PropertyPattern/CamelToSnakeCase.php:10-13 | a leading capital gives a leading underscore: "Id" maps to "_id" |
| PropertyPattern.SnakeToCamelExample | src/PropertyPattern/SnakeToCamelCase.php:10-16 | "id_model" maps to "idModel" and "age" to "age" |
| Normalization.KeepAlnum | src/Serialize.php:213 | the default pattern leaves only ASCII letters and digits, and changes nothing in a name made of them |
| Normalization.KeepAlnumAppend | src/Serialize.php:213 | the default pattern works piecewise: what stays of a concatenation is what stays of each part, in order |
| Normalization.KeepAlnumChar | src/Serialize.php:213 | a single character stays exactly when it is an ASCII letter or digit |
| Normalization.Hooked | src/Serialize.php:227-237 | without an attribute callback the value is untouched |
| NormalizeFacts.NormalizeWellFormed | src/Serialize.php:101-129 | without stop-at-first-level every nested array has distinct keys and no ignored key; there is no null when nulls are dropped, no `stdClass`, no object outside the do-not-parse list, and only strings under only-string |
| NormalizeFacts.ArrayEntriesWellFormed | src/Serialize.php:152-170 | the array `parseArray` builds is well formed at every depth |
| NormalizeFacts.ObjectEntriesWellFormed | src/Serialize.php:207-244 | the array `parseObject` builds is well formed at every depth |
| NormalizeFacts.ArrayEntriesShaped | src/Serialize.php:157-167 | `parseArray` yields distinct keys, none ignored, no null when nulls are dropped, with or without stop-at-first-level |
| NormalizeFacts.ObjectEntriesShaped | src/Serialize.php:221-243 | `parseObject` yields distinct keys, none ignored, and no null when nulls are dropped, also after the attribute callback |
| NormalizeFacts.StopKeepsArrayValues | src/Serialize.php:109-111 | under stop-at-first-level every entry of the top array is an entry of the input, its value unconverted |
| NormalizeFacts.StopKeepsObjectValues | src/Serialize.php:207-243 | under stop-at-first-level, without a callback, a property assigns nothing when it has no getter, its name is ignored or its raw value is a dropped null; otherwise it assigns its raw value (its own value or the getter's result), unconverted, under its published name |
| NormalizeFacts.ArrayEntriesAreFiltered | src/Serialize.php:157-167 | `parseArray` equals the reference filter: input order, keys verbatim, ignored keys and dropped nulls left out |
| NormalizeFacts.NormalizeArray | src/Serialize.php:152-170 | an array or `stdClass` normalises to the reference filtered array |
| NormalizeFacts.KeepKeys | src/Serialize.php:239-243 | a property adds its key exactly when its value is not a dropped null |
| NormalizeFacts.ObjectKeys | src/Serialize.php:207-244 | `parseObject` publishes a key exactly when some property publishes it: public, or hidden with its getter present; not ignored; not a dropped null |
| NormalizeFacts.DefaultPatternDropsUnderscores | src/Serialize.php:19 | on a name of letters, digits and `_` the default pattern only drops the underscores |
| NormalizeFacts.Offered | src/Serialize.php:207-219 | a public property offers its own value under its own name; a hidden one offers a getter's result under the cleaned name, keeping its declared name for the attribute lookup, or nothing without a getter |
| NormalizeFacts.ObjectEntriesArePutAll | src/Serialize.php:207-244 | the `parseObject` loop is its properties' assignments made one after another, in declaration order |
| NormalizeFacts.ObjectEntriesStep | src/Serialize.php:221-243 | one loop pass makes at most one assignment, and makes it by PHP array assignment |
| NormalizeFacts.NormalizeObject | src/Serialize.php:189-247 | an object that is parsed normalises to the run of its property assignments |
| NormalizeFacts.ObjectValue | src/Serialize.php:243 | each key of a parsed object holds the value of the last property that assigns it |
| NormalizeFacts.ObjectOrder | src/Serialize.php:243 | the keys of a parsed object come in the order of their first assignment |
| NormalizeFacts.ObjectDistinct | src/Serialize.php:207-244 | when no name is assigned twice, a parsed object is exactly its list of assignments |
| NormalizeFacts.AssignmentsOffered | src/Serialize.php:217-243 | every assignment is made under a name some property offers |
| NormalizeFacts.AssignmentsUnique | src/Serialize.php:217-243 | properties that offer distinct names assign no name twice |
| NormalizeFacts.FilteredKeepsAll | src/Serialize.php:157-167 | read to the first level with nothing ignored and nulls kept, every entry comes through as it is |
| NormalizeFacts.WellFormedIsFixed | src/Serialize.php:101-129 | a well-formed value is left unchanged by normalisation with the same settings |
| NormalizeFacts.NormalizeIdempotent | src/Serialize.php:101-129 | without stop-at-first-level, normalising the result again, with any callback, gives it back |
| NormalizeFacts.StopIdempotent | src/Serialize.php:107-111 | with stop-at-first-level on, normalising a top-level result again, from any level and with any callback, gives it back |
| NormalizeFacts.NullSymmetry | src/Serialize.php:157-243 | when every object offers distinct names, dropping nulls gives the kept-nulls result with every null entry taken out at every depth and nothing else changed |
| NormalizeFacts.CollisionKept | src/Serialize.php:239-243 | with nulls kept, a public `a` = 1 followed by a hidden `_a` whose getter returns null gives `["a" => null]` |
| NormalizeFacts.CollisionDropped | src/Serialize.php:239-243 | with nulls dropped, the same object gives `["a" => 1]` |
| NormalizeFacts.NullFilterCollision | src/Serialize.php:239-243 | on that name collision, taking the nulls out of the kept result does not give the dropped result |
| Serialize.AsArray | src/Serialize.php:58-61 | the array when the parse gave one, PHP's `TypeError` otherwise |
| Serialize.Serializer.From | src/Serialize.php:18-36 | a new serializer holds the model and the default settings |
| Serialize.Serializer.WithStopAtFirstLevel | src/Serialize.php:142-146 | switches stop-at-first-level on and changes no other setting |
| Serialize.Serializer.WithMethodPattern | src/Serialize.php:263-267 | replaces the name pattern only |
| Serialize.Serializer.WithMethodGetPrefix | src/Serialize.php:281-285 | replaces the getter prefix only |
| Serialize.Serializer.WithOnlyString | src/Serialize.php:299-303 | sets only-string only |
| Serialize.Serializer.WithDoNotParse | src/Serialize.php:317-321 | replaces the do-not-parse list only |
| Serialize.Serializer.WithDoNotParseNullValues | src/Serialize.php:334-338 | switches null-keeping off only |
| Serialize.Serializer.WithIgnoreProperties | src/Serialize.php:340-344 | replaces the ignore list only |
| Serialize.Serializer.WithoutIgnoreProperties | src/Serialize.php:346-350 | empties the ignore list only, so no key is ignored afterwards |
| Serialize.Serializer.ToArray | src/Serialize.php:58-61 | the normalisation of the model from level 1, as an array |
| Serialize.Serializer.ParseAttributes | src/Serialize.php:95-98 | as `toArray`, with the attribute callback applied to the top object's properties |
| Serialize.Serializer.ParseProperties | src/Serialize.php:101-129 | the result is `Normalize` of the value at the level it starts from; the settings are unchanged and the counter never goes down |
| Serialize.Serializer.ParseArray | src/Serialize.php:152-170 | the result is the `ArrayEntries` fold over every entry, one level down |
| Serialize.Serializer.ParseEntry | src/Serialize.php:157-167 | one loop pass: the entry is skipped when ignored, else assigned, and unset again when null and nulls are dropped |
| Serialize.Serializer.ParseStdClass | src/Serialize.php:176-179 | a `stdClass` parses as the array of its entries |
| Serialize.Serializer.ParseObject | src/Serialize.php:189-247 | an object of a do-not-parse class comes back itself, any other the `ObjectEntries` fold |
| Serialize.Serializer.ParseObjectEntry | src/Serialize.php:207-244 | one loop pass over a property: the getter rule for hidden ones, the ignore check, the callback, the null check |
| Serialize.Serializer.ApplyHook | src/Serialize.php:227-237 | the callback once with null when the property has no attribute, else once per attribute in order |
| SerializerObjectModel.HiddenName | src/SerializerObject.php:132-133 | with the default pattern a hidden property's name keeps only its letters and digits |
| SerializerObjectModel.SerializerObject.constructor | src/SerializerObject.php:9-18 | a new builder holds the model and the default settings |
| SerializerObjectModel.SerializerObject.SetMethodPattern | src/SerializerObject.php:34-37 | replaces the name pattern only |
| SerializerObjectModel.SerializerObject.SetMethodGetPrefix | src/SerializerObject.php:50-53 | replaces the getter prefix only |
| SerializerObjectModel.SerializerObject.SetStopFirstLevel | src/SerializerObject.php:66-69 | sets stop-first-level only |
| SerializerObjectModel.SerializerObject.Build | src/SerializerObject.php:71-75 | the counter is reset to 1, then the model is built as the top value |
| SerializerObjectModel.SerializerObject.BuildProperty | src/SerializerObject.php:77-96 | the result is `BuildValue` at the level it starts from; settings unchanged, the counter never goes down |
| SerializerObjectModel.SerializerObject.BuildArray | src/SerializerObject.php:102-112 | every entry built one level down under its own key |
| SerializerObjectModel.SerializerObject.BuildEntry | src/SerializerObject.php:107-109 | one loop pass: the entry is built and assigned |
| SerializerObjectModel.SerializerObject.BuildStdClass | src/SerializerObject.php:118-121 | a `stdClass` builds as the array of its entries |
| SerializerObjectModel.SerializerObject.BuildObject | src/SerializerObject.php:123-144 | public properties under their names, hidden ones under the cleaned name when the getter exists |
| SerializerObjectModel.SerializerObject.BuildObjectEntry | src/SerializerObject.php:128-141 | one loop pass over a property |
| SerializerObjectFacts.BuildKeepsEveryEntry | src/SerializerObject.php:102-112 | an array or `stdClass` keeps every entry, in order, under the same key: nothing is dropped or re-indexed |
| SerializerObjectFacts.BuildFirstLevelOnly | src/SerializerObject.php:79-81 | with stop-first-level on, an array or `stdClass` builds to its own entries, their values untouched |
| SerializerObjectFacts.BuildStopsBelowTop | src/SerializerObject.php:79-81 | with stop-first-level on, any value below the top comes back as it is |
| SerializerObjectFacts.BuildKeepsScalars | src/SerializerObject.php:95 | scalars are returned unchanged at any level |
| SerializerObjectFacts.BuildObjectKeys | src/SerializerObject.php:128-141 | an object builds to exactly the keys of its public properties and of its hidden ones with a getter |
| SerializerObjectFacts.BuildAssignment | src/SerializerObject.php:128-140 | a property assigns at most once, and always its own field value built, never a getter's result; a hidden one only when its getter exists |
| SerializerObjectFacts.BuildObjectIsPutAll | src/SerializerObject.php:123-144 | the `buildObject` loop is its properties' assignments made one after another, in declaration order |
| SerializerObjectFacts.BuildObjectFields | src/SerializerObject.php:123-144 | an object builds to its run of assignments: each key holds the built field of the last property admitted under it, keys come in first-assignment order, and with no name admitted twice the result is the list of assignments |
| SerializerObjectFacts.SerializersAgree | src/SerializerObject.php:77-96 | on values whose objects have only public properties, the builder and `Serialize` with default settings give the same result |
| Targets.PhpObject.CallSetter | src/ObjectCopy.php:59 | the setter call is recorded and no property changes |
| Targets.PhpObject.Assign | src/ObjectCopy.php:64 | the property is assigned and no setter is called |
| Targets.LowerTableKeys | src/ObjectCopy.php:73-76 | the lower-case table has an entry for a name exactly when some declared property lower-cases to it |
| Targets.LastMatch | src/ObjectCopy.php:73-76 | the last declared property with a given lower-case name: it matches, and none after it does |
| Targets.LowerTableLast | src/ObjectCopy.php:73-76 | a table entry holds the last declared property with that lower-case name, as a later property overwrites an earlier one |
| Targets.LowerTableLastWins | src/ObjectCopy.php:73-76 | each name in the lower-case table maps to a declared property with that lower-case name, and no later property has it |
| Targets.BuildLowerTable | src/ObjectCopy.php:73-76 | the loop over the class's properties builds the lower-case table |
| Targets.WriteSetterOnly | src/ObjectCopy.php:58-61 | a class with a matching setter gets the setter call and no assignment |
| Targets.WriteDirect | src/ObjectCopy.php:63-66 | without a setter, a set property or a `stdClass` takes the value under the name; no other property changes |
| Targets.WriteCaseInsensitive | src/ObjectCopy.php:79-82 | otherwise the value goes to the last declared property with the same lower-case name |
| Targets.WriteDropped | src/ObjectCopy.php:79-82 | a name matching no setter, no set property and no declared property changes nothing |
| Targets.StdClassLastWins | src/ObjectCopy.php:63-66 | into a `stdClass` every name is written, and of several pairs with the same name the last wins |
| Targets.StdClassUntouched | src/ObjectCopy.php:63-66 | a `stdClass` property no pair names keeps its value, and no setter is called |
| ObjectCopyModel.SourcePairs | src/ObjectCopy.php:25-31 | one pair per first-level entry, in order, with the key as a string |
| ObjectCopyModel.Copy | src/ObjectCopy.php:21-32 | an object target ends as the writes of the handled pairs; an array target fails at its first pair |
| ObjectCopyModel.ReadFirstLevel | src/ObjectCopy.php:25-26 | the source is read by `Serialize` with stop-at-first-level on |
| ObjectCopyModel.ApplyAttribute | src/ObjectCopy.php:45-83 | the handler maps the name and transforms the value, then the pair is written by the three tiers; the cache stays consistent |
| ObjectCopyModel.SetValue | src/ObjectCopy.php:58-82 | the three-tier write; the cache gains at most the target class's table and keeps every earlier entry |
| ObjectCopyModel.DirectTransformAsNoHandler | src/ObjectCopy.php:49-54 | copying with a closure-less `DirectTransform` writes exactly what copying without a handler writes |
| ObjectCopyModel.CopyReadsFirstLevel | src/ObjectCopy.php:25-26 | an array or `stdClass` with distinct keys is read as exactly its own entries, in order, unconverted; the i-th pair is the i-th key as a string and its value |
| ObjectCopyModel.CopyReadsObject | src/ObjectCopy.php:25-26 | an object source is read as the run of its properties' assignments, each with the raw value read for it |
| ObjectCopyModel.CopyIntoStdClass | src/ObjectCopy.php:63-66 | without a handler a `stdClass` target ends with each name bound to the value of its last pair |
| BinderObjectModel.BoundPairs | src/BinderObject.php:45-52 | one pair per first-level entry, in order, its name rewritten by the pattern when one is given |
| BinderObjectModel.BinderObject.constructor | src/BinderObject.php:11 | a new binder starts with an empty cache |
| BinderObjectModel.BinderObject.Bind | src/BinderObject.php:21-25 | a non-object target is rejected; an object target ends as the writes of the bound pairs |
| BinderObjectModel.BinderObject.BindObjectInternal | src/BinderObject.php:35-55 | the target check comes before any read or write; then each pair is renamed and written in order |
| BinderObjectModel.BinderObject.BindEntry | src/BinderObject.php:45-54 | one loop pass: the key made a name, rewritten by the pattern when one is given, then written by the three tiers |
| BinderObjectModel.BinderObject.ReadFirstLevel | src/BinderObject.php:41-43 | the source is built by `SerializerObject` with stop-first-level on |
| BinderObjectModel.BinderObject.SetPropValue | src/BinderObject.php:64-87 | the three-tier write; the cache gains at most the target class's table and keeps every earlier entry |
| BinderObjectModel.BindReadsFirstLevel | src/BinderObject.php:41-45 | an array or `stdClass` source is bound entry by entry, unconverted |
| BinderObjectModel.BindLastWriteWins | src/BinderObject.php:68-69 | into a `stdClass`, of several pairs with the same name the last one wins |
| PlainTextFormatterModel.RenderIsLines | src/Formatter/PlainTextFormatter.php:28-42 | the output is each entry's line in order: start-of-line, the nested text or `key=` and value, line break |
| PlainTextFormatterModel.RenderStaysFailed | src/Formatter/PlainTextFormatter.php:37 | once an entry cannot be made a string the whole call fails |
| PlainTextFormatterModel.RenderEmpty | src/Formatter/PlainTextFormatter.php:30-41 | an empty array gives the empty string |
| PlainTextFormatterModel.DefaultLayoutExample | src/Formatter/PlainTextFormatter.php:10-12 | with the defaults, two string entries give "value\nvalue2\n" |
| PlainTextFormatterModel.ShowNamesExample | src/Formatter/PlainTextFormatter.php:37 | with property names shown, an entry reads `id=10` |
| PlainTextFormatterModel.PlainTextFormatter.constructor | src/Formatter/PlainTextFormatter.php:10-12 | the defaults are a newline break, no line start, names hidden |
| PlainTextFormatterModel.PlainTextFormatter.WithBreakLine | src/Formatter/PlainTextFormatter.php:48-52 | replaces the line break only |
| PlainTextFormatterModel.PlainTextFormatter.WithStartOfLine | src/Formatter/PlainTextFormatter.php:58-62 | replaces the line start only |
| PlainTextFormatterModel.PlainTextFormatter.WithIgnorePropertyName | src/Formatter/PlainTextFormatter.php:68-72 | sets whether names are hidden, only |
| PlainTextFormatterModel.PlainTextFormatter.Process | src/Formatter/PlainTextFormatter.php:18-26 | an array is rendered as it is; an object is first normalised by `Serialize` |
| PlainTextFormatterModel.PlainTextFormatter.ProcessInternal | src/Formatter/PlainTextFormatter.php:28-42 | the recursive join equals the `Render` fold over every entry |
| CsvFormatterModel.KeyFields | src/Formatter/CsvFormatter.php:35 | `array_keys`: one field per entry, in order, integer keys as integers |
| CsvFormatterModel.ValueFields | src/Formatter/CsvFormatter.php:42 | `array_values`: one field per entry, in order |
| CsvFormatterModel.Rows | src/Formatter/CsvFormatter.php:27-32 | an array of arrays gives its values as rows; a flat array is the only row |
| CsvFormatterModel.IsMultidimensionalArray | src/Formatter/CsvFormatter.php:71-80 | true exactly when some value is an array |
| CsvFormatterModel.Process | src/Formatter/CsvFormatter.php:14-46 | an array is written as it is; an object is first normalised by `Serialize` |
| CsvFormatterModel.ProcessArray | src/Formatter/CsvFormatter.php:22-45 | the header line then the row lines, as `CsvText` states; the empty array gives "" |
| CsvFormatterModel.RowsStayFailed | src/Formatter/CsvFormatter.php:41-43 | once a row is not an array, or holds a field `fputcsv` cannot write, the whole call fails |
| CsvFormatterModel.RowsAreLines | src/Formatter/CsvFormatter.php:41-43 | when every row is an array of writable fields the body is one encoded line per row, in row order |
| CsvFormatterModel.FlatArrayIsOneRow | src/Formatter/CsvFormatter.php:30-43 | a flat non-empty array gives its keys' line, then its values' line, when every value can be written, and fails otherwise |
| CsvFormatterModel.ArrayOfArrays | src/Formatter/CsvFormatter.php:35-43 | an array of arrays gives the first row's keys, then one line per row; the other rows' keys play no part |
| CsvFormatterModel.MixedRowsFail | src/Formatter/CsvFormatter.php:41-42 | an array mixing arrays and other values fails |
| CsvFormatterModel.Line | src/Formatter/CsvFormatter.php:54-58 | a line exists exactly when every field is a scalar, an array or an object with `__toString`, and it is then the encoder's line |
| CsvFormatterModel.RowWritableLine | src/Formatter/CsvFormatter.php:42 | a row is writable exactly when `fputcsv` can write its values |
| CsvFormatterModel.UnwritableRowFails | src/Formatter/CsvFormatter.php:41-43 | a row holding a `stdClass` or an object without `__toString` fails the whole output |
| XmlFormatterModel.ListChildName | src/Formatter/XmlFormatter.php:55-58 | a non-numeric key names the node; a numeric key gives the list element name, followed by the key when the suffix option is on |
| XmlFormatterModel.XmlFormatter.constructor | src/Formatter/XmlFormatter.php:12-16 | the defaults are root "root", list element "item", no suffix |
| XmlFormatterModel.XmlFormatter.WithRootElement | src/Formatter/XmlFormatter.php:72-76 | replaces the root name only |
| XmlFormatterModel.XmlFormatter.WithListElement | src/Formatter/XmlFormatter.php:82-86 | replaces the list element name only |
| XmlFormatterModel.XmlFormatter.WithListElementSuffix | src/Formatter/XmlFormatter.php:91-95 | switches the suffix on only |
| XmlFormatterModel.XmlFormatter.Process | src/Formatter/XmlFormatter.php:24-40 | the early returns for arrays, then the tree; an object goes through `Serialize` and then straight to the tree |
| XmlFormatterModel.XmlFormatter.ArrayToXml | src/Formatter/XmlFormatter.php:47-67 | the node built equals `Node`: one child per entry, in order |
| XmlFormatterModel.XmlFormatter.AddChild | src/Formatter/XmlFormatter.php:54-63 | one loop pass builds the node `ChildOf` specifies: an array filled in turn, a scalar with its escaped text, and a failure on an empty name or an object |
| XmlFormatterModel.ChildrenStayFailed | src/Formatter/XmlFormatter.php:62 | once an entry cannot be written the whole tree fails |
| XmlFormatterModel.ChildrenExist | src/Formatter/XmlFormatter.php:53-64 | the children exist exactly when every entry can be written |
| XmlFormatterModel.ChildrenInOrder | src/Formatter/XmlFormatter.php:53-64 | one child per entry, the i-th child being the node of the i-th entry |
| XmlFormatterModel.ChildShape | src/Formatter/XmlFormatter.php:54-63 | an array child is named by `ListChildName`, has no text and one child per entry; a scalar child is named by its key and holds the escaped string of its value |
| XmlFormatterModel.RootShape | src/Formatter/XmlFormatter.php:50 | a document's root carries the configured root name and no text |
| XmlFormatterModel.ArrayBecomesDocument | src/Formatter/XmlFormatter.php:26-39 | with a root setting that is an XML name, an array with more than one entry, or with a non-numeric first key, whose entries can all be written gives a document with one child per entry |
| XmlFormatterModel.SingleNumericEntry | src/Formatter/XmlFormatter.php:28-30 | a one-entry array under a numeric key gives back its value without XML; null gives "" |
| XmlFormatterModel.SingleNamedEntry | src/Formatter/XmlFormatter.php:53-62 | a one-entry array under a non-numeric key gives a root holding one node with the escaped value |
| XmlFormatterModel.NumericKeyExamples | src/Formatter/XmlFormatter.php:29 | "1", "-2.5" and "+.5" are numeric keys |
| XmlFormatterModel.NonNumericKeyExamples | src/Formatter/XmlFormatter.php:55 | "a1" and "1.2.3" are not numeric keys, so they name their nodes |
| XmlFormatterModel.BadRootFails | src/Formatter/XmlFormatter.php:50 | a root setting that is not an XML name makes every array that reaches the tree fail |
| XmlFormatterModel.EmptyNameFails | src/Formatter/XmlFormatter.php:56-62 | `addChild` with an empty name fails: a scalar under the key `""`, or an array under a numeric key with an empty list element and no suffix |
| XmlFormatterModel.RootNameExamples | src/Formatter/XmlFormatter.php:12-16 | the default root "root" is an XML name; "my root" is not |

## Left out

- The JSON and YAML formatters only call `json_encode` and a YAML dumper. They are not part of this model.
- The parse and encode entry points of `Serialize` (`fromYaml`, `fromJson`, `fromPhpSerialize`, `toPhpSerialize`, `toYaml`, `toJson`, `toXml`, `toPlainText`) are library calls. They are not modelled.
- Reflection is abstract. The attributes a property carries and the attribute callback are a parameter (`Normalization.AttributeHook`).
- A getter is a method of the object whose result is given with it (`PhpValue.Method`). User code in getters and setters is not run. A setter call is only recorded in `Targets.PhpObject`.
- Floating-point values and their string forms are not modelled.
- PhpValue.LooseKeyEq: an approximation of PHP 8's `==` between an array key and an ignore-list entry. It makes an integer equal only to its canonical decimal text. PHP also makes `1` equal to "01", "1.0", " 1" and "1e0", and compares two numeric strings as numbers; those cases are not modelled. The ignore list holds keys only, so `true` or `null` in it, which PHP compares loosely with every key, is not modelled either.
- A numeric string key that PHP would turn into an integer key is left as written. `is_numeric` on string keys is approximated as an optional sign followed by digits with at most one decimal point. Leading or trailing whitespace and exponents are not accepted, although PHP 8's `is_numeric` accepts both kinds of whitespace ("1 " is numeric to PHP).
- The byte encoders are parameters: `fputcsv` is `CsvFormatterModel.LineEncoder` and `htmlspecialchars` is `XmlFormatterModel.Escaper`. `asXML` is not modelled: the XML result is the element tree.
- A regular-expression failure, which makes the pattern and handler methods return null, is not modelled.
- Values are acyclic and have value semantics. Object identity, references and cyclic object graphs are not modelled.
- PhpValue.FindMethod: method visibility is not modelled. `method_exists` also finds protected and private methods, and calling such a getter or setter from outside the class throws `Error` unless the class defines `__call`. The model uses the getter's result, or records the setter call, as for a public method.
- Targets.Write: declared property types and `readonly` are not modelled. The value is stored exactly as given. PHP instead coerces it to a scalar property type, since the library's files do not declare `strict_types`; for example, `10` written to a `string` property is stored as "10". When the value cannot be coerced, PHP throws `TypeError` part way through the copy or bind, and a write to an initialised `readonly` property throws `Error`. So `ObjectCopyModel.Copy` and `BinderObjectModel.BinderObject.Bind` promise `Done` and the full written state also where PHP would coerce or throw.
- Magic methods `__get` and `__set` are not modelled.
- `__toString` is consulted by name only, and only by the CSV field check (`CsvFormatterModel.CsvField`); the text it returns is the encoder's business. In the plain-text and XML formatters every object in a position where PHP needs a string is a failure, even one with `__toString`.
- XmlFormatterModel.IsXmlName: the XML name rules use ASCII letters, digits, `_`, `:`, `-` and `.`, and accept every character beyond ASCII. Other root settings that still make a well-formed document, such as one with trailing whitespace, are treated as failures. `addChild`'s name checks beyond the empty name are not modelled.
- Static properties are not modelled.
- Several calls between files do not match the callee's signature, for example `ObjectCopy::copy` calling `parseAttributes` and `BinderObject` calling methods `SerializerObject` does not define. Copy is therefore modelled as a first-level read by `Serialize` followed by one write per pair. Bind is a first-level build by `SerializerObject` followed by one rename and write per pair.
- Serialize.Serializer.ParseProperties: requires a start level of 1, or a call from inside a parse where the counter is at least 2, because that is how the code calls it. Other counter values are not modelled.
- SerializerObjectModel.SerializerObject.BuildProperty: requires the counter to be at least 1, as `build` sets it. A direct call on a fresh builder is not modelled.
- ObjectCopyModel.Copy: requires the target to be an object or an array. For an array target it states only the outcome, because PHP throws before any write.
- ObjectCopyModel.SetValue: requires the cache to agree with the target's class (`Targets.CacheAgrees`). This relies on PHP class names identifying classes.
- BinderObjectModel.BinderObject.SetPropValue: requires the cache to agree with the target's class, for the same reason.
- NormalizeFacts.NullSymmetry: requires every object to offer distinct names. When two properties publish the same name, a kept null overwrites the earlier value and a dropped null leaves it, so the symmetry fails (`NormalizeFacts.NullFilterCollision`).
- NormalizeFacts.NormalizeIdempotent: requires stop-at-first-level off; `NormalizeFacts.StopIdempotent` covers it on, for a first pass from the top. With it on, a first pass below the top returns its value unconverted, and a second pass from the top does convert it.
- ObjectCopyModel.CopyReadsFirstLevel: requires distinct keys, as every PHP array and `stdClass` has them.

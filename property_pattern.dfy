/** The property-name patterns a binder applies to each source property name. */
module PropertyPattern {
  import opened Text
  import opened NameCase
  import PropertyHandler

  /** The three pattern classes. */
  datatype Pattern =
    | CamelToSnakeCase
    | SnakeToCamelCase
    | DifferentTargetProperty(mapFields: map<string, string>)

  /** `map`, dispatched on the pattern's class. `SnakeToCamelCase` performs
      the same rewrite as the handler of that name. */
  function Map(p: Pattern, sourcePropertyName: string): string
  {
    match p
    case CamelToSnakeCase => CamelToSnake(sourcePropertyName)
    case SnakeToCamelCase => PropertyHandler.SnakeToCamel(sourcePropertyName)
    case DifferentTargetProperty(mapFields) => PropertyHandler.MapperName(mapFields, sourcePropertyName)
  }

  /** `CamelToSnakeCase::map`: every capital becomes `_` and its lower-case
      letter (a leading capital too, unlike the handler of the same name). The
      result has no capitals and is one character longer per capital. */
  function CamelToSnake(s: string): (r: string)
    ensures NoUpper(r)
    ensures |r| == |s| + CountUpper(s)
    ensures NoUpper(s) ==> r == s
  {
    UpperToUnderscoreFacts(s);
    UpperToUnderscorePass(s)
  }

  // ---------------------------------------------------------------------
  // Lemmas

  /** A camel-case name without underscores survives snake case and back. */
  lemma CamelSnakeRoundTrip(s: string)
    requires '_' !in s
    ensures PropertyHandler.SnakeToCamel(CamelToSnake(s)) == s
  {
    var t := CamelToSnake(s);
    LowerIdentity(t);
    UpperToUnderscoreThenUnderscoreLetter(s);
  }

  /** A snake-case name without capitals survives camel case and back. */
  lemma SnakeCamelRoundTrip(s: string)
    requires NoUpper(s)
    ensures CamelToSnake(PropertyHandler.SnakeToCamel(s)) == s
  {
    LowerIdentity(s);
    UnderscoreLetterThenUpperToUnderscore(s);
  }

  /** `DifferentTargetProperty` renames exactly the listed properties. */
  lemma DifferentTargetRenames(mapFields: map<string, string>, s: string)
    ensures s in mapFields ==> Map(DifferentTargetProperty(mapFields), s) == mapFields[s]
    ensures s !in mapFields ==> Map(DifferentTargetProperty(mapFields), s) == s
  {
  }

  lemma CamelToSnakeExample()
    ensures CamelToSnake("idModel") == "id_model"
  {
    assert UpperToUnderscorePass("odel") == "odel";
    assert UpperToUnderscorePass("Model") == "_model";
  }

  /** A leading capital yields a leading underscore. */
  lemma CamelToSnakeLeadingCapital()
    ensures CamelToSnake("Id") == "_id"
  {
  }

  /** `SnakeToCamelCase::map` on the names of the binder's own tests. */
  lemma SnakeToCamelExample()
    ensures Map(SnakeToCamelCase, "id_model") == "idModel"
    ensures Map(SnakeToCamelCase, "age") == "age"
  {
    SnakeToCamelIdModel();
    SnakeToCamelAge();
  }

  lemma SnakeToCamelIdModel()
    ensures PropertyHandler.SnakeToCamel("id_model") == "idModel"
  {
    LowerIdentity("id_model");
    SnakeToCamelPiecesIdModel();
    UnderscoreLetterAppend("id", "_model");
  }

  lemma SnakeToCamelPiecesIdModel()
    ensures UnderscoreLetterPass("id") == "id"
    ensures UnderscoreLetterPass("_model") == "Model"
    ensures "id" + "_model" == "id_model"
    ensures "id" + "Model" == "idModel"
  {
    UnderscoreLetterNoUnderscore("id");
    UnderscoreModel();
  }

  lemma SnakeToCamelAge()
    ensures PropertyHandler.SnakeToCamel("age") == "age"
  {
    LowerIdentity("age");
    UnderscoreLetterNoUnderscore("age");
  }

  lemma UnderscoreModel()
    ensures UnderscoreLetterPass("_model") == "Model"
  {
    var t := "_model";
    UnderscoreLetterNoUnderscore(t[2..]);
    assert t[2..] == "odel";
    assert UpperChar('m') == 'M';
    assert [UpperChar(t[1])] + t[2..] == "Model";
  }
}

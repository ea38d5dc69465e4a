/** The property handlers a copy consults for each source property: a
    target-name mapping and an optional value transformation. */
module PropertyHandler {
  import opened Text
  import opened PhpValue
  import opened NameCase

  /** The optional closure `(propertyName, targetName, value, instance)`. */
  type ValueHandler = (string, string, Value, Value) -> Value

  /** The four handler classes; each carries the optional value closure its
      constructor takes. */
  datatype Handler =
    | DirectTransform(valueHandler: Option<ValueHandler>)
    | PropertyNameMapper(mapFields: map<string, string>, valueHandler: Option<ValueHandler>)
    | CamelToSnakeCase(valueHandler: Option<ValueHandler>)
    | SnakeToCamelCase(valueHandler: Option<ValueHandler>)

  /** `mapName`, dispatched on the handler's class. */
  function MapName(h: Handler, property: string): string
  {
    match h
    case DirectTransform(_) => property
    case PropertyNameMapper(mapFields, _) => MapperName(mapFields, property)
    case CamelToSnakeCase(_) => CamelToSnake(property)
    case SnakeToCamelCase(_) => SnakeToCamel(property)
  }

  /** `transformValue`, inherited by every handler from `DirectTransform`: the
      closure's result when there is one, the value itself otherwise. */
  function TransformValue(h: Handler, propertyName: string, targetName: string, value: Value, instance: Value): (r: Value)
    ensures h.valueHandler.None? ==> r == value
    ensures h.valueHandler.Some? ==> r == h.valueHandler.value(propertyName, targetName, value, instance)
  {
    match h.valueHandler
    case None => value
    case Some(f) => f(propertyName, targetName, value, instance)
  }

  /** `$this->mapFields[$property] ?? $property`. */
  function MapperName(mapFields: map<string, string>, property: string): (r: string)
    ensures property in mapFields ==> r == mapFields[property]
    ensures property !in mapFields ==> r == property
  {
    if property in mapFields then mapFields[property] else property
  }

  /** `CamelToSnakeCase::mapName`: the acronym rewrite, then the camel-boundary
      rewrite, then `strtolower`. The result is the input with `_` put before
      each character `SnakeMarks` marks, all lower-cased: before every capital
      that follows a lower-case letter, and before the last capital of every
      acronym run the scan matches (`SnakeMarksWhere`, `AcronymSplitsAtStart`,
      `AcronymSplitsAfterLower`). So it has no capitals and differs from the
      input only by inserted underscores and lower-cased letters. */
  function CamelToSnake(property: string): (r: string)
    ensures r == Lower(Split(property, SnakeMarks(property)))
    ensures NoUpper(r)
    ensures Letters(r) == Letters(property)
  {
    var r := Lower(CamelBoundaryPass(AcronymPass(property, true)));
    SnakeCaseSplits(property);
    LowerNoUpper(CamelBoundaryPass(AcronymPass(property, true)));
    LettersOfLower(CamelBoundaryPass(AcronymPass(property, true)));
    CamelBoundaryStrip(AcronymPass(property, true));
    AcronymPassStrip(property, true);
    r
  }

  /** `SnakeToCamelCase::mapName`: `strtolower`, then every `_` followed by a
      letter becomes that letter in upper case. Each capital of the result
      stands for one removed underscore, turning the capitals back into
      `_letter` gives the lower-cased input, and no underscore is left before
      a lower-case letter (one before anything else is kept).
      `SnakeToCamelDetermined` shows these clauses fix the result. */
  function SnakeToCamel(property: string): (r: string)
    ensures |r| + CountUpper(r) == |property|
    ensures UpperToUnderscorePass(r) == Lower(property)
    ensures NoUnderscoreLower(r)
  {
    LowerNoUpper(property);
    UnderscoreLetterNoPair(Lower(property));
    UnderscoreLetterLength(Lower(property));
    UnderscoreLetterThenUpperToUnderscore(Lower(property));
    UnderscoreLetterPass(Lower(property))
  }

  // ---------------------------------------------------------------------
  // Lemmas

  /** `DirectTransform::mapName` is the identity, and so is its
      `transformValue` without a closure. */
  lemma DirectTransformIsIdentity(property: string, targetName: string, value: Value, instance: Value)
    ensures MapName(DirectTransform(None), property) == property
    ensures TransformValue(DirectTransform(None), property, targetName, value, instance) == value
  {
  }

  /** A name already in snake case (no capitals) is left alone. */
  lemma {:induction false} CamelToSnakeKeepsSnake(s: string)
    requires NoUpper(s)
    ensures CamelToSnake(s) == s
  {
    AcronymPassNoUpper(s, true);
    CamelBoundaryNoUpper(s);
    LowerIdentity(s);
  }

  /** Mapping twice is mapping once. */
  lemma CamelToSnakeIdempotent(s: string)
    ensures CamelToSnake(CamelToSnake(s)) == CamelToSnake(s)
  {
    CamelToSnakeKeepsSnake(CamelToSnake(s));
  }

  /** A name without underscores comes back lower-cased. */
  lemma SnakeToCamelNoUnderscore(s: string)
    requires '_' !in s
    ensures SnakeToCamel(s) == Lower(s)
  {
    assert forall i :: 0 <= i < |s| ==> Lower(s)[i] != '_';
    UnderscoreLetterNoUnderscore(Lower(s));
  }

  /** The contract of `SnakeToCamel` leaves exactly one possible result. */
  lemma SnakeToCamelDetermined(property: string, r: string)
    requires UpperToUnderscorePass(r) == Lower(property)
    requires NoUnderscoreLower(r)
    ensures r == SnakeToCamel(property)
  {
    UpperToUnderscoreThenUnderscoreLetterPairFree(r);
  }

  /** Capitals in the input are lowered before the rewrite. */
  lemma SnakeToCamelMixedCase()
    ensures SnakeToCamel("My_Test") == "myTest"
  {
    LowerMixedCase();
    SnakeToCamelExample1();
  }

  lemma LowerMixedCase()
    ensures Lower("My_Test") == "my_test"
  {
    var s := "My_Test";
    var l := Lower(s);
    assert LowerChar('M') == 'm' && LowerChar('T') == 't';
    assert l[0] == 'm' && l[3] == 't';
    assert forall i :: 0 <= i < 7 && i != 0 && i != 3 ==> !IsUpper(s[i]) && l[i] == s[i];
    assert l == "my_test";
  }

  /** An underscore before a digit is kept. */
  lemma SnakeToCamelKeepsUnderscore()
    ensures SnakeToCamel("a_1") == "a_1"
  {
    LowerIdentity("a_1");
    assert UnderscoreLetterPass("1") == "1";
    assert UnderscoreLetterPass("_1") == "_1";
    assert UnderscoreLetterPass("a_1") == "a_1";
  }

  lemma CamelToSnakeExample1()
    ensures CamelToSnake("myTest") == "my_test"
  {
    AcronymExample1();
    CamelBoundaryExample1();
    LowerExample1();
  }

  lemma AcronymExample1()
    ensures AcronymPass("myTest", true) == "myTest"
  {
    AcronymPassNoAcronym("myTest", true);
  }

  lemma CamelBoundaryExample1()
    ensures CamelBoundaryPass("myTest") == "my_test"
  {
    assert CamelBoundaryPass("st") == "st";
    assert CamelBoundaryPass("est") == "est";
    assert CamelBoundaryPass("yTest") == "y_test";
  }

  lemma LowerExample1()
    ensures Lower("my_test") == "my_test"
  {
    LowerIdentity("my_test");
  }

  /** An acronym is split off before its last capital. */
  lemma CamelToSnakeExample2()
    ensures CamelToSnake("XMLHttpRequest") == "xml_http_request"
  {
    AcronymExample2();
    CamelBoundaryExample2();
    LowerExample2();
  }

  lemma AcronymMatchExample2()
    ensures AcronymMatch("XMLHttpRequest", true) == 5
  {
    assert UpperRun("ttpRequest") == 0;
    assert UpperRun("HttpRequest") == 1;
    assert UpperRun("LHttpRequest") == 2;
    assert UpperRun("MLHttpRequest") == 3;
  }

  lemma AcronymExample2()
    ensures AcronymPass("XMLHttpRequest", true) == "XML_httpRequest"
  {
    AcronymStepExample2("XMLHttpRequest");
    AcronymPieces2();
    SplitExample2();
  }

  lemma AcronymPieces2()
    ensures AcronymReplacement("XMLHt") + AcronymPass("tpRequest", false) == "XML_httpRequest"
  {
    ReplacementExample2();
    AcronymTailExample2();
    SplitExample2();
  }

  lemma AcronymTailExample2()
    ensures AcronymPass("tpRequest", false) == "tpRequest"
  {
    NoAcronymExample2();
    AcronymPassNoAcronym("tpRequest", false);
  }

  lemma NoAcronymExample2()
    ensures NoAcronym("tpRequest")
  {
  }

  lemma AcronymStepExample2(t: string)
    requires t == "XMLHttpRequest"
    ensures AcronymPass(t, true) == AcronymReplacement(t[..5]) + AcronymPass(t[5..], false)
  {
    AcronymMatchExample2();
  }

  lemma ReplacementExample2()
    ensures AcronymReplacement("XMLHt") == "XML_ht"
  {
    assert Lower("Ht") == "ht";
  }

  /** How the name splits around its acronym and its camel boundary. Kept
      apart from the facts about the passes: next to those, the solver
      unfolds the passes on every literal it sees. */
  lemma SplitExample2()
    ensures "XMLHttpRequest"[..5] == "XMLHt" && "XMLHttpRequest"[5..] == "tpRequest"
    ensures "XML_ht" + "tpRequest" == "XML_httpRequest"
    ensures "XML_htt" + ['p', 'R'] + "equest" == "XML_httpRequest"
    ensures "XML_htt" + ['p', '_', 'r'] + "equest" == "XML_http_request"
  {
  }

  lemma CamelBoundaryExample2()
    ensures CamelBoundaryPass("XML_httpRequest") == "XML_http_request"
  {
    CamelBoundaryPieces2();
    SplitExample2();
    CamelBoundarySplit("XML_htt", 'p', 'R', "equest");
  }

  lemma CamelBoundaryPieces2()
    ensures CamelBoundaryPass("XML_htt") == "XML_htt"
    ensures CamelBoundaryPass("equest") == "equest"
  {
    CamelBoundaryHead2("XML_htt");
    CamelBoundaryNoUpper("equest");
  }

  lemma CamelBoundaryHead2(t: string)
    requires t == "XML_htt"
    ensures CamelBoundaryPass(t) == t
  {
    CamelBoundaryNoPair(t);
  }

  lemma LowerExample2()
    ensures Lower("XML_http_request") == "xml_http_request"
  {
  }

  /** Digits neither start nor end a match. */
  lemma CamelToSnakeDigits()
    ensures CamelToSnake("myTestMultiple1234") == "my_test_multiple1234"
  {
    SnakeCaseDigits();
  }

  lemma SnakeCaseDigits()
    ensures Lower(CamelBoundaryPass(AcronymPass("myTestMultiple1234", true))) == "my_test_multiple1234"
  {
    AcronymDigits();
    CamelBoundaryDigits();
    LowerDigits();
  }

  lemma AcronymDigits()
    ensures AcronymPass("myTestMultiple1234", true) == "myTestMultiple1234"
  {
    NoAcronymDigits();
    AcronymPassNoAcronym("myTestMultiple1234", true);
  }

  lemma NoAcronymDigits()
    ensures NoAcronym("myTestMultiple1234")
  {
  }

  lemma CamelBoundaryDigits()
    ensures CamelBoundaryPass("myTestMultiple1234") == "my_test_multiple1234"
  {
    CamelBoundaryPiecesDigits();
    SplitDigits();
    CamelBoundaryTwoSplits("m", 'y', 'T', "es", 't', 'M', "ultiple1234");
  }

  lemma CamelBoundaryPiecesDigits()
    ensures CamelBoundaryPass("m") == "m"
    ensures CamelBoundaryPass("es") == "es"
    ensures CamelBoundaryPass("ultiple1234") == "ultiple1234"
  {
    CamelBoundaryNoUpper("m");
    CamelBoundaryNoUpper("es");
    CamelBoundaryNoUpper("ultiple1234");
  }

  /** Where the name splits around its two camel boundaries. */
  lemma SplitDigits()
    ensures "m" + ['y', 'T'] + "es" + ['t', 'M'] + "ultiple1234" == "myTestMultiple1234"
    ensures "m" + ['y', '_', 't'] + "es" + ['t', '_', 'm'] + "ultiple1234" == "my_test_multiple1234"
  {
  }

  lemma LowerDigits()
    ensures Lower("my_test_multiple1234") == "my_test_multiple1234"
  {
    LowerIdentity("my_test_multiple1234");
  }

  /** Two camel boundaries, each rewritten in place. */
  lemma CamelBoundaryTwoSplits(a: string, x: char, y: char, b: string, z: char, w: char, c: string)
    requires IsLower(x) && IsUpper(y) && IsLower(z) && IsUpper(w)
    ensures CamelBoundaryPass(a + [x, y] + b + [z, w] + c)
         == CamelBoundaryPass(a) + [x, '_', LowerChar(y)] + CamelBoundaryPass(b) + [z, '_', LowerChar(w)] + CamelBoundaryPass(c)
  {
    var rest := b + [z, w] + c;
    CamelBoundarySplit(b, z, w, c);
    assert a + [x, y] + b + [z, w] + c == a + [x, y] + rest;
    CamelBoundarySplit(a, x, y, rest);
  }

  /** A run of capitals after a lower-case letter that an earlier match
      took is not split: the scan resumes after that letter, and `[a-z]` is
      not there to start a match. So the second run below keeps its capitals
      together, and only the boundary rewrite puts `_` before it. */
  lemma CamelToSnakeRunAfterMatch()
    ensures !Resumes("ABcDEf", true, 2)
    ensures CamelToSnake("ABcDEf") == "a_bc_def"
  {
    AcronymMatchRunAfterMatch();
    SnakeCaseRunAfterMatch();
  }

  lemma SnakeCaseRunAfterMatch()
    ensures Lower(CamelBoundaryPass(AcronymPass("ABcDEf", true))) == "a_bc_def"
  {
    AcronymRunAfterMatch("ABcDEf");
    CamelBoundaryRunAfterMatch();
    LowerRunAfterMatch();
  }

  lemma AcronymMatchRunAfterMatch()
    ensures AcronymMatch("ABcDEf", true) == 3
  {
    assert UpperRun("Bc") == 1;
    assert UpperRun("ABcDEf") == 2;
  }

  lemma AcronymRunAfterMatch(t: string)
    requires t == "ABcDEf"
    ensures AcronymPass(t, true) == "A_bcDEf"
  {
    AcronymMatchRunAfterMatch();
    AcronymPiecesRunAfterMatch();
    SplitRunAfterMatch();
  }

  lemma AcronymPiecesRunAfterMatch()
    ensures AcronymReplacement("ABc") == "A_bc"
    ensures AcronymPass("DEf", false) == "DEf"
  {
    assert Lower("Bc") == "bc";
    AcronymPassNoRunAfterLower("DEf", false);
  }

  /** Where the name splits around its acronym match and its camel boundary. */
  lemma SplitRunAfterMatch()
    ensures "ABcDEf"[..3] == "ABc" && "ABcDEf"[3..] == "DEf"
    ensures "A_bc" + "DEf" == "A_bcDEf"
    ensures "A_b" + ['c', 'D'] + "Ef" == "A_bcDEf"
    ensures "A_b" + ['c', '_', 'd'] + "Ef" == "A_bc_dEf"
  {
  }

  lemma CamelBoundaryRunAfterMatch()
    ensures CamelBoundaryPass("A_bcDEf") == "A_bc_dEf"
  {
    CamelBoundaryPiecesRunAfterMatch();
    SplitRunAfterMatch();
    CamelBoundarySplit("A_b", 'c', 'D', "Ef");
  }

  lemma CamelBoundaryPiecesRunAfterMatch()
    ensures CamelBoundaryPass("A_b") == "A_b"
    ensures CamelBoundaryPass("Ef") == "Ef"
  {
    CamelBoundaryNoPair("A_b");
    CamelBoundaryNoPair("Ef");
  }

  lemma LowerRunAfterMatch()
    ensures Lower("A_bc_dEf") == "a_bc_def"
  {
  }

  /** Capitals after `_` are neither split as an acronym nor preceded by a
      lower-case letter, so they are only lower-cased. */
  lemma CamelToSnakeRunAfterUnderscore()
    ensures CamelToSnake("a_XMLHttp") == "a_xmlhttp"
  {
    AcronymRunAfterUnderscore();
    CamelBoundaryRunAfterUnderscore();
    LowerRunAfterUnderscore();
  }

  lemma AcronymRunAfterUnderscore()
    ensures AcronymPass("a_XMLHttp", true) == "a_XMLHttp"
  {
    AcronymPassNoRunAfterLower("a_XMLHttp", true);
  }

  lemma CamelBoundaryRunAfterUnderscore()
    ensures CamelBoundaryPass("a_XMLHttp") == "a_XMLHttp"
  {
    CamelBoundaryNoPair("a_XMLHttp");
  }

  lemma LowerRunAfterUnderscore()
    ensures Lower("a_XMLHttp") == "a_xmlhttp"
  {
  }

  lemma SnakeToCamelExample1()
    ensures SnakeToCamel("my_test") == "myTest"
  {
    LowerExample1();
    UnderscoreLetterNoUnderscore("my");
    UnderscoreTest();
    JoinExample1();
    UnderscoreLetterAppend("my", "_test");
  }

  lemma JoinExample1()
    ensures "my" + "_test" == "my_test"
    ensures "my" + "Test" == "myTest"
  {
  }

  lemma UnderscoreTest()
    ensures UnderscoreLetterPass("_test") == "Test"
  {
    var t := "_test";
    UnderscoreLetterNoUnderscore(t[2..]);
    assert t[2..] == "est";
    assert UpperChar('t') == 'T';
    assert [UpperChar(t[1])] + t[2..] == "Test";
  }

  /** Snake case back to camel case, acronym and all. */
  lemma SnakeToCamelExample2()
    ensures SnakeToCamel("xml_http_request") == "xmlHttpRequest"
  {
    LowerExample3();
    SnakeToCamelPieces3();
    JoinExample3();
    UnderscoreLetterAppend("xml", "_http");
    UnderscoreLetterAppend("xml" + "_http", "_request");
  }

  lemma LowerExample3()
    ensures Lower("xml_http_request") == "xml_http_request"
  {
    LowerIdentity("xml_http_request");
  }

  lemma SnakeToCamelPieces3()
    ensures UnderscoreLetterPass("xml") == "xml"
    ensures UnderscoreLetterPass("_http") == "Http"
    ensures UnderscoreLetterPass("_request") == "Request"
  {
    UnderscoreLetterNoUnderscore("xml");
    UnderscoreHttp();
    UnderscoreRequest();
  }

  lemma UnderscoreHttp()
    ensures UnderscoreLetterPass("_http") == "Http"
  {
    var t := "_http";
    UnderscoreLetterNoUnderscore(t[2..]);
    assert t[2..] == "ttp";
    assert UpperChar('h') == 'H';
    assert [UpperChar(t[1])] + t[2..] == "Http";
  }

  lemma UnderscoreRequest()
    ensures UnderscoreLetterPass("_request") == "Request"
  {
    var t := "_request";
    UnderscoreLetterNoUnderscore(t[2..]);
    assert t[2..] == "equest";
    assert UpperChar('r') == 'R';
    assert [UpperChar(t[1])] + t[2..] == "Request";
  }

  lemma JoinExample3()
    ensures "xml" + "_http" + "_request" == "xml_http_request"
    ensures "xml" + "Http" + "Request" == "xmlHttpRequest"
  {
  }

  /** A leading capital gets no underscore before it. */
  lemma CamelToSnakeLeadingCapital()
    ensures CamelToSnake("MyTest") == "my_test"
  {
    AcronymExample3();
    CamelBoundaryExample3();
    LowerExample4();
  }

  lemma AcronymExample3()
    ensures AcronymPass("MyTest", true) == "MyTest"
  {
    var t := "MyTest";
    assert NoAcronym(t) by {
      assert !IsUpper(t[1]) && !IsUpper(t[3]) && !IsUpper(t[4]) && !IsUpper(t[5]);
    }
    AcronymPassNoAcronym(t, true);
  }

  lemma LowerExample4()
    ensures Lower("My_test") == "my_test"
  {
  }

  lemma CamelBoundaryExample3()
    ensures CamelBoundaryPass("MyTest") == "My_test"
  {
    CamelBoundaryNoUpper("est");
    assert "MyTest"[1..] == "yTest";
    assert "yTest"[2..] == "est";
  }
}

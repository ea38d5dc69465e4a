/** The `Serialize` class: a model value, its settings, and the level
    counter the recursive parse advances. */
module Serialize {
  import opened Text
  import opened PhpValue
  import opened Normalization

  /** What a method declared to return `array` yields: the array, or PHP's
      `TypeError` when the value that came back is not one (the top object is
      on the do-not-parse list). */
  datatype ArrayResult = Array(entries: seq<(Key, Value)>) | TypeError

  function AsArray(v: Value): (r: ArrayResult)
    ensures r.Array? <==> v.Arr?
    ensures v.Arr? ==> r.entries == v.entries
  {
    if v.Arr? then Array(v.entries) else TypeError
  }

  class Serializer {
    var model: Value
    var methodPattern: NamePattern
    var methodGetPrefix: string
    var stopAtFirstLevel: bool
    var onlyString: bool
    var currentLevel: int
    var doNotParse: seq<string>
    var serializeNull: bool
    var ignoreProperties: seq<Key>

    /** The settings as one value. */
    function Cfg(): Config
      reads this`methodPattern, this`methodGetPrefix, this`stopAtFirstLevel, this`onlyString,
        this`doNotParse, this`serializeNull, this`ignoreProperties
    {
      Config(methodPattern, methodGetPrefix, stopAtFirstLevel, onlyString, doNotParse, serializeNull, ignoreProperties)
    }

    /** `Serialize::from`: an object or an array with the default settings. */
    constructor From(model: Value)
      requires model.Arr? || model.Std? || model.Obj?
      ensures this.model == model
      ensures Cfg() == DefaultConfig
      ensures currentLevel == 0
    {
      this.model := model;
      methodPattern := StripNonAlnum;
      methodGetPrefix := "get";
      stopAtFirstLevel := false;
      onlyString := false;
      currentLevel := 0;
      doNotParse := [];
      serializeNull := true;
      ignoreProperties := [];
    }

    method WithStopAtFirstLevel() returns (self: Serializer)
      modifies this`stopAtFirstLevel
      ensures self == this
      ensures Cfg() == old(Cfg()).(stopAtFirstLevel := true)
    {
      stopAtFirstLevel := true;
      self := this;
    }

    method WithMethodPattern(pattern: NamePattern) returns (self: Serializer)
      modifies this`methodPattern
      ensures self == this
      ensures Cfg() == old(Cfg()).(pattern := pattern)
    {
      methodPattern := pattern;
      self := this;
    }

    method WithMethodGetPrefix(prefix: string) returns (self: Serializer)
      modifies this`methodGetPrefix
      ensures self == this
      ensures Cfg() == old(Cfg()).(getPrefix := prefix)
    {
      methodGetPrefix := prefix;
      self := this;
    }

    method WithOnlyString(value: bool) returns (self: Serializer)
      modifies this`onlyString
      ensures self == this
      ensures Cfg() == old(Cfg()).(onlyString := value)
    {
      onlyString := value;
      self := this;
    }

    method WithDoNotParse(classes: seq<string>) returns (self: Serializer)
      modifies this`doNotParse
      ensures self == this
      ensures Cfg() == old(Cfg()).(doNotParse := classes)
    {
      doNotParse := classes;
      self := this;
    }

    method WithDoNotParseNullValues() returns (self: Serializer)
      modifies this`serializeNull
      ensures self == this
      ensures Cfg() == old(Cfg()).(serializeNull := false)
    {
      serializeNull := false;
      self := this;
    }

    method WithIgnoreProperties(properties: seq<Key>) returns (self: Serializer)
      modifies this`ignoreProperties
      ensures self == this
      ensures Cfg() == old(Cfg()).(ignore := properties)
    {
      ignoreProperties := properties;
      self := this;
    }

    method WithoutIgnoreProperties() returns (self: Serializer)
      modifies this`ignoreProperties
      ensures self == this
      ensures Cfg() == old(Cfg()).(ignore := [])
    {
      ignoreProperties := [];
      self := this;
    }

    /** `toArray`: the model parsed from level 1. */
    method ToArray() returns (r: ArrayResult)
      modifies this`currentLevel
      ensures r == AsArray(Normalize(Cfg(), model, true, None))
    {
      var v := ParseProperties(model, 1, None);
      r := AsArray(v);
    }

    /** `parseAttributes`: as `toArray`, with the attribute callback applied
      to the top object's properties. */
    method ParseAttributes(hook: AttributeHook) returns (r: ArrayResult)
      modifies this`currentLevel
      ensures r == AsArray(Normalize(Cfg(), model, true, Some(hook)))
    {
      var v := ParseProperties(model, 1, Some(hook));
      r := AsArray(v);
    }

    /** `parseProperties`. Its callers either pass a start level of 1 or call
        it from inside a parse, where the counter is already past 1. */
    method ParseProperties(property: Value, startLevel: nat, hook: Option<AttributeHook>) returns (r: Value)
      requires startLevel == 1 || (startLevel == 0 && currentLevel >= 2)
      modifies this`currentLevel
      ensures Cfg() == old(Cfg())
      ensures r == Normalize(Cfg(), property, startLevel == 1, hook)
      ensures currentLevel >= 1 && (startLevel == 0 ==> currentLevel >= old(currentLevel))
      decreases property, 3
    {
      if startLevel != 0 {
        currentLevel := startLevel;
      }
      if stopAtFirstLevel && currentLevel > 1 {
        return property;
      }
      if property.Arr? {
        r := ParseArray(property);
      } else if property.Std? {
        r := ParseStdClass(property);
      } else if property.Obj? {
        r := ParseObject(property, hook);
      } else if onlyString {
        r := Str(ScalarText(property));
      } else {
        r := property;
      }
    }

    /** `parseArray`: every entry not on the ignore list is parsed one level
        down and assigned under its key, then unset again when it came back
        null and nulls are not kept. */
    method ParseArray(arr: Value) returns (r: Value)
      requires arr.Arr? || arr.Std?
      requires currentLevel >= 1
      modifies this`currentLevel
      ensures r == Arr(ArrayEntries(Cfg(), arr, |arr.entries|))
      ensures currentLevel > old(currentLevel)
      decreases arr, 1
    {
      var result: seq<(Key, Value)> := [];
      currentLevel := currentLevel + 1;
      var i := 0;
      while i < |arr.entries|
        invariant 0 <= i <= |arr.entries|
        invariant result == ArrayEntries(Cfg(), arr, i)
        invariant currentLevel > old(currentLevel) && currentLevel >= 2
      {
        result := ParseEntry(arr, i, result);
        i := i + 1;
      }
      r := Arr(result);
    }

    /** One pass of `parseArray`'s loop: entry `i` parsed and assigned, or
        skipped when its key is ignored. */
    method ParseEntry(arr: Value, i: nat, result: seq<(Key, Value)>) returns (next: seq<(Key, Value)>)
      requires arr.Arr? || arr.Std?
      requires i < |arr.entries|
      requires currentLevel >= 2
      requires result == ArrayEntries(Cfg(), arr, i)
      modifies this`currentLevel
      ensures Cfg() == old(Cfg())
      ensures next == ArrayEntries(Cfg(), arr, i + 1)
      ensures currentLevel >= old(currentLevel)
      decreases arr, 0
    {
      next := result;
      var key := arr.entries[i].0;
      if !KeyIn(key, ignoreProperties) {
        var parsed := ParseProperties(arr.entries[i].1, 0, None);
        next := Put(next, key, parsed);
        if Get(next, key) == Some(Null) && !serializeNull {
          next := Remove(next, key);
        }
      }
    }

    /** `parseStdClass`: the `(array)` cast of a `stdClass` is its entry list. */
    method ParseStdClass(std: Value) returns (r: Value)
      requires std.Std?
      requires currentLevel >= 1
      modifies this`currentLevel
      ensures r == Arr(ArrayEntries(Cfg(), std, |std.entries|))
      ensures currentLevel > old(currentLevel)
      decreases std, 2
    {
      r := ParseArray(std);
    }

    /** `parseObject`: an object of a do-not-parse class comes back as it is;
        otherwise each public property, and each hidden property that has a
        getter, is published under its name unless ignored, after the
        attribute callback and unless it is a null that is dropped. */
    method ParseObject(obj: Value, hook: Option<AttributeHook>) returns (r: Value)
      requires obj.Obj?
      requires currentLevel >= 1
      modifies this`currentLevel
      ensures r == if Unparsed(Cfg(), obj.cls) then obj else Arr(ObjectEntries(Cfg(), obj, |obj.props|, hook))
      ensures currentLevel >= old(currentLevel)
      decreases obj, 1
    {
      var k := 0;
      while k < |doNotParse|
        invariant 0 <= k <= |doNotParse|
        invariant forall k' :: 0 <= k' < k ==> !IsA(obj.cls, doNotParse[k'])
      {
        if IsA(obj.cls, doNotParse[k]) {
          return obj;
        }
        k := k + 1;
      }

      var result: seq<(Key, Value)> := [];
      currentLevel := currentLevel + 1;
      var i := 0;
      while i < |obj.props|
        invariant 0 <= i <= |obj.props|
        invariant result == ObjectEntries(Cfg(), obj, i, hook)
        invariant currentLevel > old(currentLevel) && currentLevel >= 2
      {
        result := ParseObjectEntry(obj, i, hook, result);
        i := i + 1;
      }
      r := Arr(result);
    }

    /** One pass of `parseObject`'s loop over property `i`. */
    method ParseObjectEntry(obj: Value, i: nat, hook: Option<AttributeHook>, result: seq<(Key, Value)>)
      returns (next: seq<(Key, Value)>)
      requires obj.Obj?
      requires i < |obj.props|
      requires currentLevel >= 2
      requires result == ObjectEntries(Cfg(), obj, i, hook)
      modifies this`currentLevel
      ensures Cfg() == old(Cfg())
      ensures next == ObjectEntries(Cfg(), obj, i + 1, hook)
      ensures currentLevel >= old(currentLevel)
      decreases obj, 0
    {
      next := result;
      var propertyName: string;
      var keyName: string;
      var value: Value;
      var readable := true;
      match obj.props[i].0 {
        case Public(name) =>
          propertyName, keyName, value := name, name, obj.props[i].1;
        case Hidden(name) =>
          keyName := name;
          propertyName := CleanName(methodPattern, name);
          value := Null;
          var getter := FindMethod(obj.methods, methodGetPrefix + propertyName);
          if getter.None? {
            readable := false;
          } else {
            value := obj.methods[getter.value].result;
          }
      }
      if readable && !KeyIn(StrKey(propertyName), ignoreProperties) {
        var parsed := ParseProperties(value, 0, None);
        parsed := ApplyHook(hook, keyName, parsed);
        if !(parsed.Null? && !serializeNull) {
          next := Put(next, StrKey(propertyName), parsed);
        }
      }
    }

    /** The attribute callback of `parseObject`: called once with `null` when
        the property has no matching attribute, otherwise once per attribute
        instance, in order. */
    method ApplyHook(hook: Option<AttributeHook>, keyName: string, value: Value) returns (r: Value)
      ensures r == Hooked(hook, keyName, value)
    {
      r := value;
      if hook.Some? {
        var attributes := hook.value.attributesOf(keyName);
        if |attributes| == 0 {
          r := hook.value.apply(None, r);
        } else {
          var j := 0;
          while j < |attributes|
            invariant 0 <= j <= |attributes|
            invariant FoldAttributes(hook.value.apply, attributes[j..], r) == FoldAttributes(hook.value.apply, attributes, value)
          {
            assert attributes[j..][1..] == attributes[j + 1..];
            r := hook.value.apply(Some(attributes[j]), r);
            j := j + 1;
          }
        }
      }
    }
  }
}

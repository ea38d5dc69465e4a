/** The older normaliser, `SerializerObject`: the same walk as `Serialize`
    without any filtering, where a hidden property is admitted when its getter
    exists but contributes its own field value. */
module SerializerObjectModel {
  import opened Text
  import opened PhpValue
  import opened Normalization

  /** The builder's settings. */
  datatype BuildConfig = BuildConfig(pattern: NamePattern, getPrefix: string, stopFirstLevel: bool)

  const DefaultBuildConfig := BuildConfig(StripNonAlnum, "get", false)

  /** The name a hidden property is admitted under: the pattern is applied to
      the key from its last NUL on, NUL included. */
  function HiddenName(c: BuildConfig, name: string): (r: string)
    ensures c.pattern.StripNonAlnum? ==> r == KeepAlnum(name)
  {
    assert ("\0" + name)[1..] == name;
    CleanName(c.pattern, "\0" + name)
  }

  /** The value `buildProperty` returns; `top` says that the level counter
      is at most 1, as `build` leaves it. */
  function BuildValue(c: BuildConfig, v: Value, top: bool): Value
    decreases v, 1
  {
    if c.stopFirstLevel && !top then v
    else match v
      case Arr(es) => Arr(BuildEntries(c, v, |es|))
      case Std(es) => Arr(BuildEntries(c, v, |es|))
      case Obj(_, props, _) => Arr(BuildObjectEntries(c, v, |props|))
      case _ => v
  }

  /** `buildArray` after its first `n` entries: every entry, assigned under
      its own key. */
  function BuildEntries(c: BuildConfig, v: Value, n: nat): seq<(Key, Value)>
    requires v.Arr? || v.Std?
    requires n <= |v.entries|
    decreases v, 0, n
  {
    if n == 0 then []
    else Put(BuildEntries(c, v, n - 1), v.entries[n - 1].0, BuildValue(c, v.entries[n - 1].1, false))
  }

  /** `buildObject` after its first `n` properties. */
  function BuildObjectEntries(c: BuildConfig, v: Value, n: nat): seq<(Key, Value)>
    requires v.Obj?
    requires n <= |v.props|
    decreases v, 0, n
  {
    if n == 0 then []
    else
      var acc := BuildObjectEntries(c, v, n - 1);
      match v.props[n - 1].0
      case Public(name) => Put(acc, StrKey(name), BuildValue(c, v.props[n - 1].1, false))
      case Hidden(name) =>
        var prop := HiddenName(c, name);
        if FindMethod(v.methods, c.getPrefix + prop).Some? then Put(acc, StrKey(prop), BuildValue(c, v.props[n - 1].1, false))
        else acc
  }

  class SerializerObject {
    var model: Value
    var methodPattern: NamePattern
    var methodGetPrefix: string
    var stopFirstLevel: bool
    var currentLevel: int

    function Cfg(): BuildConfig
      reads this`methodPattern, this`methodGetPrefix, this`stopFirstLevel
    {
      BuildConfig(methodPattern, methodGetPrefix, stopFirstLevel)
    }

    constructor (model: Value)
      ensures this.model == model
      ensures Cfg() == DefaultBuildConfig
      ensures currentLevel == 0
    {
      this.model := model;
      methodPattern := StripNonAlnum;
      methodGetPrefix := "get";
      stopFirstLevel := false;
      currentLevel := 0;
    }

    method SetMethodPattern(pattern: NamePattern)
      modifies this`methodPattern
      ensures Cfg() == old(Cfg()).(pattern := pattern)
    {
      methodPattern := pattern;
    }

    method SetMethodGetPrefix(prefix: string)
      modifies this`methodGetPrefix
      ensures Cfg() == old(Cfg()).(getPrefix := prefix)
    {
      methodGetPrefix := prefix;
    }

    method SetStopFirstLevel(stop: bool)
      modifies this`stopFirstLevel
      ensures Cfg() == old(Cfg()).(stopFirstLevel := stop)
    {
      stopFirstLevel := stop;
    }

    /** `build`: the level counter back to 1, then the model. */
    method Build() returns (r: Value)
      modifies this`currentLevel
      ensures r == BuildValue(Cfg(), model, true)
      ensures currentLevel >= 1
    {
      currentLevel := 1;
      r := BuildProperty(model);
    }

    /** `buildProperty`; the counter never goes down. */
    method BuildProperty(property: Value) returns (r: Value)
      requires currentLevel >= 1
      modifies this`currentLevel
      ensures Cfg() == old(Cfg())
      ensures r == BuildValue(old(Cfg()), property, old(currentLevel) <= 1)
      ensures currentLevel >= old(currentLevel)
      decreases property, 3
    {
      if stopFirstLevel && currentLevel > 1 {
        return property;
      }
      if property.Arr? {
        r := BuildArray(property);
      } else if property.Std? {
        r := BuildStdClass(property);
      } else if property.Obj? {
        r := BuildObject(property);
      } else {
        r := property;
      }
    }

    /** `buildArray`: each entry built one level down, under its own key. */
    method BuildArray(arr: Value) returns (r: Value)
      requires arr.Arr? || arr.Std?
      requires currentLevel >= 1
      modifies this`currentLevel
      ensures r == Arr(BuildEntries(Cfg(), arr, |arr.entries|))
      ensures currentLevel > old(currentLevel)
      decreases arr, 1
    {
      var result: seq<(Key, Value)> := [];
      currentLevel := currentLevel + 1;
      var i := 0;
      while i < |arr.entries|
        invariant 0 <= i <= |arr.entries|
        invariant result == BuildEntries(Cfg(), arr, i)
        invariant currentLevel > old(currentLevel) && currentLevel >= 2
      {
        result := BuildEntry(arr, i, result);
        i := i + 1;
      }
      r := Arr(result);
    }

    /** One pass of `buildArray`'s loop: entry `i` built and assigned. */
    method BuildEntry(arr: Value, i: nat, result: seq<(Key, Value)>) returns (next: seq<(Key, Value)>)
      requires arr.Arr? || arr.Std?
      requires i < |arr.entries|
      requires currentLevel >= 2
      requires result == BuildEntries(Cfg(), arr, i)
      modifies this`currentLevel
      ensures Cfg() == old(Cfg())
      ensures next == BuildEntries(Cfg(), arr, i + 1)
      ensures currentLevel >= old(currentLevel)
      decreases arr, 0
    {
      var built := BuildProperty(arr.entries[i].1);
      next := Put(result, arr.entries[i].0, built);
    }

    method BuildStdClass(std: Value) returns (r: Value)
      requires std.Std?
      requires currentLevel >= 1
      modifies this`currentLevel
      ensures r == Arr(BuildEntries(Cfg(), std, |std.entries|))
      ensures currentLevel > old(currentLevel)
      decreases std, 2
    {
      r := BuildArray(std);
    }

    /** `buildObject`: public properties under their names; a hidden one under
        its cleaned name when the getter exists, with its field value. */
    method BuildObject(obj: Value) returns (r: Value)
      requires obj.Obj?
      requires currentLevel >= 1
      modifies this`currentLevel
      ensures r == Arr(BuildObjectEntries(Cfg(), obj, |obj.props|))
      ensures currentLevel > old(currentLevel)
      decreases obj, 1
    {
      var result: seq<(Key, Value)> := [];
      currentLevel := currentLevel + 1;
      var i := 0;
      while i < |obj.props|
        invariant 0 <= i <= |obj.props|
        invariant result == BuildObjectEntries(Cfg(), obj, i)
        invariant currentLevel > old(currentLevel) && currentLevel >= 2
      {
        result := BuildObjectEntry(obj, i, result);
        i := i + 1;
      }
      r := Arr(result);
    }

    /** One pass of `buildObject`'s loop over property `i`. */
    method BuildObjectEntry(obj: Value, i: nat, result: seq<(Key, Value)>) returns (next: seq<(Key, Value)>)
      requires obj.Obj?
      requires i < |obj.props|
      requires currentLevel >= 2
      requires result == BuildObjectEntries(Cfg(), obj, i)
      modifies this`currentLevel
      ensures Cfg() == old(Cfg())
      ensures next == BuildObjectEntries(Cfg(), obj, i + 1)
      ensures currentLevel >= old(currentLevel)
      decreases obj, 0
    {
      next := result;
      match obj.props[i].0 {
        case Public(name) =>
          var built := BuildProperty(obj.props[i].1);
          next := Put(result, StrKey(name), built);
        case Hidden(name) =>
          var propertyName := CleanName(methodPattern, "\0" + name);
          assert propertyName == HiddenName(Cfg(), name);
          if FindMethod(obj.methods, methodGetPrefix + propertyName).Some? {
            var built := BuildProperty(obj.props[i].1);
            next := Put(result, StrKey(propertyName), built);
          }
      }
    }
  }
}

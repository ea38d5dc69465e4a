/** `BinderObject`: the source built to its first level by `SerializerObject`,
    each name optionally rewritten by a property pattern, then written into
    the target by the three-tier rule, with the lower-case table cached on
    the binder instance. */
module BinderObjectModel {
  import opened Text
  import opened PhpValue
  import opened PropertyPattern
  import opened Targets
  import opened SerializerObjectModel
  import SerializerObjectFacts

  /** The settings the source is built with. */
  const FirstLevel := DefaultBuildConfig.(stopFirstLevel := true)

  /** The entries `bindObjectInternal` iterates over; a source that does not
      build to an array gives none. */
  function BoundEntries(source: Value): seq<(Key, Value)>
  {
    match BuildValue(FirstLevel, source, true)
    case Arr(es) => es
    case _ => []
  }

  /** The name a pair is written under: its key as a string, rewritten by
      the pattern when one is given. */
  function BoundName(pattern: Option<Pattern>, key: Key): string
  {
    match pattern
    case None => KeyText(key)
    case Some(p) => Map(p, KeyText(key))
  }

  /** The (name, value) pairs written, in source order. */
  function BoundPairs(source: Value, pattern: Option<Pattern>): (r: seq<(string, Value)>)
    ensures |r| == |BoundEntries(source)|
    ensures forall i :: 0 <= i < |r| ==>
      r[i] == (BoundName(pattern, BoundEntries(source)[i].0), BoundEntries(source)[i].1)
  {
    var es := BoundEntries(source);
    seq(|es|, i requires 0 <= i < |es| => (BoundName(pattern, es[i].0), es[i].1))
  }

  /** What a bind leaves in an object target. */
  function BoundState(cls: TargetClass, st: ObjState, source: Value, pattern: Option<Pattern>): ObjState
  {
    WriteAll(cls, st, BoundPairs(source, pattern))
  }

  class BinderObject {
    var propNameLower: map<string, map<string, string>>

    constructor ()
      ensures propNameLower == map[]
    {
      propNameLower := map[];
    }

    /** `bind`: a fresh binder, so a fresh cache, for every call. */
    static method Bind(source: Value, target: Target, pattern: Option<Pattern>) returns (r: Outcome)
      modifies Frame(target)
      ensures target.NonObject? ==> r == InvalidArgument
      ensures target.Object? ==> r == Done
      ensures target.Object? ==> target.obj.State() == BoundState(target.obj.cls, old(target.obj.State()), source, pattern)
    {
      var binder := new BinderObject();
      r := binder.BindObjectInternal(source, target, pattern);
    }

    /** `bindObjectInternal`: a target that is not an object is rejected
        before anything is read or written. */
    method BindObjectInternal(source: Value, target: Target, pattern: Option<Pattern>) returns (r: Outcome)
      requires target.Object? ==> CacheAgrees(propNameLower, target.obj.cls)
      modifies this`propNameLower, Frame(target)
      ensures target.NonObject? ==> r == InvalidArgument && propNameLower == old(propNameLower)
      ensures target.Object? ==> r == Done && CacheAgrees(propNameLower, target.obj.cls)
      ensures target.Object? ==> target.obj.State() == BoundState(target.obj.cls, old(target.obj.State()), source, pattern)
    {
      if target.NonObject? {
        return InvalidArgument;
      }
      var obj := target.obj;
      var sourceArray := ReadFirstLevel(source);
      ghost var pairs := BoundPairs(source, pattern);
      ghost var st0 := obj.State();
      var i := 0;
      while i < |sourceArray|
        invariant 0 <= i <= |sourceArray|
        invariant CacheAgrees(propNameLower, obj.cls)
        invariant obj.State() == WriteAll(obj.cls, st0, pairs[..i])
      {
        BindEntry(obj, sourceArray[i].0, sourceArray[i].1, pattern, st0, pairs, i);
        i := i + 1;
      }
      assert pairs[..|sourceArray|] == pairs;
      r := Done;
    }

    /** One pass of the loop in `bindObjectInternal`: the key made a name,
        rewritten by the pattern when one is given, then written. */
    method BindEntry(obj: PhpObject, key: Key, value: Value, pattern: Option<Pattern>,
                     ghost st0: ObjState, ghost pairs: seq<(string, Value)>, ghost i: nat)
      requires i < |pairs| && pairs[i] == (BoundName(pattern, key), value)
      requires CacheAgrees(propNameLower, obj.cls)
      requires obj.State() == WriteAll(obj.cls, st0, pairs[..i])
      modifies this`propNameLower, obj
      ensures CacheAgrees(propNameLower, obj.cls)
      ensures obj.State() == WriteAll(obj.cls, st0, pairs[..i + 1])
    {
      var propName := KeyText(key);
      if pattern.Some? {
        propName := Map(pattern.value, propName);
      }
      SetPropValue(obj, propName, value);
      WriteAllStep(obj.cls, st0, pairs, i);
    }

    /** The source built by `SerializerObject` with stop-at-first-level on. */
    static method ReadFirstLevel(source: Value) returns (entries: seq<(Key, Value)>)
      ensures entries == BoundEntries(source)
    {
      var builder := new SerializerObject(source);
      builder.SetStopFirstLevel(true);
      var built := builder.Build();
      entries := if built.Arr? then built.entries else [];
    }

    /** `setPropValue`: the setter, else the direct assignment, else the
        case-insensitive match through the table cached on this binder. */
    method SetPropValue(obj: PhpObject, propName: string, value: Value)
      requires CacheAgrees(propNameLower, obj.cls)
      modifies this`propNameLower, obj
      ensures CacheAgrees(propNameLower, obj.cls)
      ensures obj.cls.name in old(propNameLower) ==> propNameLower == old(propNameLower)
      ensures forall n :: n in old(propNameLower) ==> n in propNameLower && propNameLower[n] == old(propNameLower)[n]
      ensures obj.State() == Write(obj.cls, old(obj.State()), propName, value)
    {
      if HasMethod(obj.cls.methods, "set" + propName) {
        obj.CallSetter(propName, value);
      } else if IsSet(obj.props, propName) || obj.cls.isStdClass {
        obj.Assign(propName, value);
      } else {
        var className := obj.cls.name;
        if className !in propNameLower {
          var table := BuildLowerTable(obj.cls.vars);
          propNameLower := propNameLower[className := table];
        }
        var propLower := Lower(propName);
        assert propNameLower[className] == LowerTable(obj.cls.vars);
        if propLower in propNameLower[className] {
          obj.Assign(propNameLower[className][propLower], value);
        }
      }
    }
  }

  /** An array or a `stdClass` source is read to its first level only: its
      own entries, in order, are what is written. */
  lemma BindReadsFirstLevel(source: Value)
    requires source.Arr? || source.Std?
    requires UniqueKeys(source.entries)
    ensures BoundEntries(source) == source.entries
  {
    SerializerObjectFacts.BuildFirstLevelOnly(FirstLevel, source);
  }

  /** Into a `stdClass` target, when two names are written the last write
      wins. */
  lemma BindLastWriteWins(cls: TargetClass, st: ObjState, source: Value, pattern: Option<Pattern>, k: nat)
    requires cls.isStdClass && cls.methods == []
    requires k < |BoundPairs(source, pattern)|
    requires forall j :: k < j < |BoundPairs(source, pattern)| ==> BoundPairs(source, pattern)[j].0 != BoundPairs(source, pattern)[k].0
    ensures Get(BoundState(cls, st, source, pattern).props, BoundPairs(source, pattern)[k].0) == Some(BoundPairs(source, pattern)[k].1)
  {
    StdClassLastWins(cls, st, BoundPairs(source, pattern), k);
  }
}

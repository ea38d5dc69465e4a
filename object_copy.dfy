/** `ObjectCopy::copy`: the source read to its first level, then each
    (name, value) pair renamed and transformed by the optional property
    handler and written into the target by the three-tier rule. */
module ObjectCopyModel {
  import opened Text
  import opened PhpValue
  import opened Normalization
  import opened NormalizeFacts
  import opened PropertyHandler
  import opened Targets
  import Serialize

  /** The settings `copy` reads the source with. */
  const FirstLevel := DefaultConfig.(stopAtFirstLevel := true)

  /** The entries of the source's first level. */
  function FirstLevelEntries(source: Value): seq<(Key, Value)>
  {
    match Normalize(FirstLevel, source, true, None)
    case Arr(es) => es
    case _ => []
  }

  /** The (name, value) pairs `copy` writes before the handler: the
      first-level entries, each key as the string PHP passes on. */
  function SourcePairs(source: Value): (r: seq<(string, Value)>)
    ensures |r| == |FirstLevelEntries(source)|
    ensures forall i :: 0 <= i < |r| ==> r[i] == (KeyText(FirstLevelEntries(source)[i].0), FirstLevelEntries(source)[i].1)
  {
    var es := FirstLevelEntries(source);
    seq(|es|, i requires 0 <= i < |es| => (KeyText(es[i].0), es[i].1))
  }

  /** The pair written for a source pair: with a handler, its mapped name and
      its transformed value (the handler sees the whole source). */
  function Handled(handler: Option<Handler>, source: Value, pair: (string, Value)): (string, Value)
  {
    match handler
    case None => pair
    case Some(h) =>
      var targetName := MapName(h, pair.0);
      (targetName, TransformValue(h, pair.0, targetName, pair.1, source))
  }

  function HandledAll(handler: Option<Handler>, source: Value, pairs: seq<(string, Value)>): (r: seq<(string, Value)>)
    ensures |r| == |pairs|
    ensures forall i :: 0 <= i < |r| ==> r[i] == Handled(handler, source, pairs[i])
  {
    seq(|pairs|, i requires 0 <= i < |pairs| => Handled(handler, source, pairs[i]))
  }

  /** What `copy` leaves in an object target. */
  function CopiedState(cls: TargetClass, st: ObjState, source: Value, handler: Option<Handler>): ObjState
  {
    WriteAll(cls, st, HandledAll(handler, source, SourcePairs(source)))
  }

  /** `copy`. An array target makes `method_exists` throw at the first pair. */
  method Copy(source: Value, target: Target, handler: Option<Handler>) returns (r: Outcome)
    requires source.IsContainer()
    requires target.Object? || target.value.Arr?
    modifies Frame(target)
    ensures target.Object? ==> r == Done
    ensures target.Object? ==> target.obj.State() == CopiedState(target.obj.cls, old(target.obj.State()), source, handler)
    ensures target.NonObject? ==> r == (if SourcePairs(source) == [] then Done else Outcome.TypeError)
  {
    var entries := ReadFirstLevel(source);
    if target.NonObject? {
      return if |entries| == 0 then Done else Outcome.TypeError;
    }
    var obj := target.obj;
    ghost var pairs := HandledAll(handler, source, SourcePairs(source));
    ghost var st0 := obj.State();
    var propNameLower: map<string, map<string, string>> := map[];
    var i := 0;
    while i < |entries|
      invariant 0 <= i <= |entries|
      invariant CacheAgrees(propNameLower, obj.cls)
      invariant obj.State() == WriteAll(obj.cls, st0, pairs[..i])
    {
      propNameLower := ApplyAttribute(entries[i].1, KeyText(entries[i].0), handler, obj, propNameLower, source);
      WriteAllStep(obj.cls, st0, pairs, i);
      i := i + 1;
    }
    assert pairs[..|entries|] == pairs;
    r := Done;
  }

  /** `Serialize::from($source)->withStopAtFirstLevel()`, read as an array. */
  method ReadFirstLevel(source: Value) returns (entries: seq<(Key, Value)>)
    requires source.IsContainer()
    ensures entries == FirstLevelEntries(source)
  {
    var serializer := new Serialize.Serializer.From(source);
    serializer := serializer.WithStopAtFirstLevel();
    var sourceArray := serializer.ToArray();
    entries := if sourceArray.Array? then sourceArray.entries else [];
  }

  /** `applyAttribute`: one pair through the handler, then written. */
  method ApplyAttribute(value: Value, propertyName: string, handler: Option<Handler>, target: PhpObject,
                        propNameLower: map<string, map<string, string>>, source: Value)
    returns (propNameLower': map<string, map<string, string>>)
    requires CacheAgrees(propNameLower, target.cls)
    modifies target
    ensures CacheAgrees(propNameLower', target.cls)
    ensures target.cls.name in propNameLower ==> propNameLower' == propNameLower
    ensures forall n :: n in propNameLower ==> n in propNameLower' && propNameLower'[n] == propNameLower[n]
    ensures var (name, v) := Handled(handler, source, (propertyName, value));
      target.State() == Write(target.cls, old(target.State()), name, v)
  {
    var targetName := propertyName;
    var v := value;
    if handler.Some? {
      targetName := MapName(handler.value, propertyName);
      v := TransformValue(handler.value, propertyName, targetName, v, source);
    }
    propNameLower' := SetValue(target, targetName, v, propNameLower);
  }

  /** The second half of `applyAttribute`: the setter, the direct assignment,
      or the case-insensitive match through the per-class table, which is
      built on first use and kept in `propNameLower`. */
  method SetValue(target: PhpObject, targetName: string, v: Value, propNameLower: map<string, map<string, string>>)
    returns (propNameLower': map<string, map<string, string>>)
    requires CacheAgrees(propNameLower, target.cls)
    modifies target
    ensures CacheAgrees(propNameLower', target.cls)
    ensures target.cls.name in propNameLower ==> propNameLower' == propNameLower
    ensures forall n :: n in propNameLower ==> n in propNameLower' && propNameLower'[n] == propNameLower[n]
    ensures target.State() == Write(target.cls, old(target.State()), targetName, v)
  {
    propNameLower' := propNameLower;
    if HasMethod(target.cls.methods, "set" + targetName) {
      target.CallSetter(targetName, v);
      return;
    }

    if IsSet(target.props, targetName) || target.cls.isStdClass {
      target.Assign(targetName, v);
      return;
    }

    var className := target.cls.name;
    if className !in propNameLower' {
      var table := BuildLowerTable(target.cls.vars);
      propNameLower' := propNameLower'[className := table];
    }

    var propLower := Lower(targetName);
    assert propNameLower'[className] == LowerTable(target.cls.vars);
    if propLower in propNameLower'[className] {
      target.Assign(propNameLower'[className][propLower], v);
    }
  }

  /** A `DirectTransform` without a value closure writes exactly what no
      handler writes. */
  lemma DirectTransformAsNoHandler(cls: TargetClass, st: ObjState, source: Value)
    ensures CopiedState(cls, st, source, Some(DirectTransform(None))) == CopiedState(cls, st, source, None)
  {
    var pairs := SourcePairs(source);
    forall i | 0 <= i < |pairs|
      ensures Handled(Some(DirectTransform(None)), source, pairs[i]) == pairs[i]
    {
      DirectTransformIsIdentity(pairs[i].0, pairs[i].0, pairs[i].1, source);
    }
    assert HandledAll(Some(DirectTransform(None)), source, pairs) == HandledAll(None, source, pairs);
  }

  /** The source is read to its first level only. An array or a
      `stdClass` gives every one of its entries, in order, under its own key
      and unconverted. */
  lemma CopyReadsFirstLevel(source: Value)
    requires source.Arr? || source.Std?
    requires UniqueKeys(source.entries)
    ensures FirstLevelEntries(source) == source.entries
    ensures |SourcePairs(source)| == |source.entries|
    ensures forall i :: 0 <= i < |source.entries| ==>
      SourcePairs(source)[i] == (KeyText(source.entries[i].0), source.entries[i].1)
  {
    NormalizeArray(FirstLevel, source, true, None);
    FilteredKeepsAll(FirstLevel, source.entries);
  }

  /** An object source gives the run of its properties' assignments, each
      with the raw value read for it (`StopKeepsObjectValues`). */
  lemma CopyReadsObject(source: Value)
    requires source.Obj?
    ensures FirstLevelEntries(source) == PutAll(Assignments(FirstLevel, source, |source.props|, None))
  {
    assert !Unparsed(FirstLevel, source.cls);
    NormalizeObject(FirstLevel, source, true, None);
  }

  /** With no handler, a `stdClass` target ends with each source name bound
      to the value of its last pair. */
  lemma CopyIntoStdClass(cls: TargetClass, st: ObjState, source: Value, k: nat)
    requires cls.isStdClass && cls.methods == []
    requires k < |SourcePairs(source)|
    requires forall j :: k < j < |SourcePairs(source)| ==> SourcePairs(source)[j].0 != SourcePairs(source)[k].0
    ensures Get(CopiedState(cls, st, source, None).props, SourcePairs(source)[k].0) == Some(SourcePairs(source)[k].1)
  {
    var pairs := SourcePairs(source);
    assert HandledAll(None, source, pairs) == pairs;
    StdClassLastWins(cls, st, pairs, k);
  }
}

/** What `SerializerObject::build` promises, proved about `BuildValue`. */
module SerializerObjectFacts {
  import opened Text
  import opened PhpValue
  import opened Normalization
  import opened SerializerObjectModel

  /** Every entry of `es`, converted one level down, under its own key. */
  function Converted(c: BuildConfig, es: seq<(Key, Value)>): (r: seq<(Key, Value)>)
    ensures |r| == |es|
    ensures forall i :: 0 <= i < |r| ==> r[i] == (es[i].0, BuildValue(c, es[i].1, false))
  {
    seq(|es|, i requires 0 <= i < |es| => (es[i].0, BuildValue(c, es[i].1, false)))
  }

  /** Arrays and `stdClass` objects keep every entry, in order, under the same
      key: nothing is filtered, dropped or re-indexed. */
  lemma {:induction false} BuildKeepsEveryEntry(c: BuildConfig, v: Value, n: nat)
    requires v.Arr? || v.Std?
    requires n <= |v.entries|
    requires UniqueKeys(v.entries)
    ensures BuildEntries(c, v, n) == Converted(c, v.entries[..n])
  {
    if n > 0 {
      var m := n - 1;
      BuildKeepsEveryEntry(c, v, m);
      ConvertedFresh(c, v.entries, m);
      BuildEntriesStep(c, v, m);
      ConvertedSnoc(c, v.entries, m + 1);
    }
  }

  /** With distinct keys, the key of entry `m` is not among the converted
      entries before it. */
  lemma ConvertedFresh(c: BuildConfig, es: seq<(Key, Value)>, m: nat)
    requires UniqueKeys(es)
    requires m < |es|
    ensures !HasKey(Converted(c, es[..m]), es[m].0)
  {
    var acc := Converted(c, es[..m]);
    forall i | 0 <= i < |acc|
      ensures acc[i].0 != es[m].0
    {
      assert acc[i].0 == es[i].0;
    }
  }

  lemma BuildEntriesStep(c: BuildConfig, v: Value, m: nat)
    requires v.Arr? || v.Std?
    requires m < |v.entries|
    ensures BuildEntries(c, v, m + 1) == Put(BuildEntries(c, v, m), v.entries[m].0, BuildValue(c, v.entries[m].1, false))
  {
  }

  lemma ConvertedSnoc(c: BuildConfig, es: seq<(Key, Value)>, n: nat)
    requires 0 < n <= |es|
    ensures Converted(c, es[..n]) == Converted(c, es[..n - 1]) + [(es[n - 1].0, BuildValue(c, es[n - 1].1, false))]
  {
  }

  /** With stop-at-first-level on, values under the top container come back
      as they are: an array or a `stdClass` builds to its own entry list. */
  lemma BuildFirstLevelOnly(c: BuildConfig, v: Value)
    requires c.stopFirstLevel
    requires v.Arr? || v.Std?
    requires UniqueKeys(v.entries)
    ensures BuildValue(c, v, true) == Arr(v.entries)
  {
    var es := v.entries;
    BuildKeepsEveryEntry(c, v, |es|);
    assert es[..|es|] == es;
    forall i | 0 <= i < |es|
      ensures Converted(c, es)[i] == es[i]
    {
      BuildStopsBelowTop(c, es[i].1);
    }
    assert Converted(c, es) == es;
  }

  /** Below the top, with stop-at-first-level on, any value is left alone. */
  lemma BuildStopsBelowTop(c: BuildConfig, v: Value)
    requires c.stopFirstLevel
    ensures BuildValue(c, v, false) == v
  {
  }

  /** Scalars are returned unchanged, at any level. */
  lemma BuildKeepsScalars(c: BuildConfig, v: Value, top: bool)
    requires v.IsScalar()
    ensures BuildValue(c, v, top) == v
  {
  }

  /** The key an object's `i`-th property is built under, if any: a public
      property under its own name, a hidden one under its cleaned name when
      the getter `getPrefix + name` exists. */
  predicate Admits(c: BuildConfig, v: Value, i: nat, k: Key)
    requires v.Obj? && i < |v.props|
  {
    match v.props[i].0
    case Public(name) => k == StrKey(name)
    case Hidden(name) =>
      k == StrKey(HiddenName(c, name)) && FindMethod(v.methods, c.getPrefix + HiddenName(c, name)).Some?
  }

  /** An object builds to exactly the keys of its admitted properties. */
  lemma {:induction false} BuildObjectKeys(c: BuildConfig, v: Value, n: nat, k: Key)
    requires v.Obj?
    requires n <= |v.props|
    ensures HasKey(BuildObjectEntries(c, v, n), k) <==> exists i :: 0 <= i < n && Admits(c, v, i, k)
  {
    if n > 0 {
      var m := n - 1;
      BuildObjectKeys(c, v, m, k);
      BuildObjectKeysStep(c, v, m, k);
      assert (exists i :: 0 <= i < m + 1 && Admits(c, v, i, k))
         <==> (exists i :: 0 <= i < m && Admits(c, v, i, k)) || Admits(c, v, m, k);
    }
  }

  /** One more property adds exactly the key it is admitted under. */
  lemma BuildObjectKeysStep(c: BuildConfig, v: Value, m: nat, k: Key)
    requires v.Obj?
    requires m < |v.props|
    ensures HasKey(BuildObjectEntries(c, v, m + 1), k) <==> HasKey(BuildObjectEntries(c, v, m), k) || Admits(c, v, m, k)
  {
    var acc := BuildObjectEntries(c, v, m);
    var built := BuildValue(c, v.props[m].1, false);
    match v.props[m].0 {
      case Public(name) =>
        PutKeys(acc, StrKey(name), built, k);
      case Hidden(name) =>
        var prop := HiddenName(c, name);
        if FindMethod(v.methods, c.getPrefix + prop).Some? {
          PutKeys(acc, StrKey(prop), built, k);
        }
    }
  }

  /** The assignment an object's `i`-th property makes: a public property
      its own built value under its name; a hidden one, when the getter
      `getPrefix + cleaned name` exists, its own field value built, under
      the cleaned name. The getter is never called. */
  function BuildAssignment(c: BuildConfig, v: Value, i: nat): (r: seq<(Key, Value)>)
    requires v.Obj? && i < |v.props|
    ensures |r| <= 1
    ensures r != [] ==> r[0].1 == BuildValue(c, v.props[i].1, false)
  {
    match v.props[i].0
    case Public(name) => [(StrKey(name), BuildValue(c, v.props[i].1, false))]
    case Hidden(name) =>
      var prop := HiddenName(c, name);
      if FindMethod(v.methods, c.getPrefix + prop).Some? then [(StrKey(prop), BuildValue(c, v.props[i].1, false))]
      else []
  }

  /** The assignments of the first `n` properties, in declaration order. */
  function BuildAssignments(c: BuildConfig, v: Value, n: nat): seq<(Key, Value)>
    requires v.Obj? && n <= |v.props|
  {
    if n == 0 then [] else BuildAssignments(c, v, n - 1) + BuildAssignment(c, v, n - 1)
  }

  /** `buildObject` makes exactly the assignments of its properties, one
      after another. */
  lemma {:induction false} BuildObjectIsPutAll(c: BuildConfig, v: Value, n: nat)
    requires v.Obj? && n <= |v.props|
    ensures BuildObjectEntries(c, v, n) == PutAll(BuildAssignments(c, v, n))
  {
    if n > 0 {
      var m := n - 1;
      BuildObjectIsPutAll(c, v, m);
      BuildObjectStep(c, v, m);
      PutAllSnoc(BuildAssignments(c, v, m), BuildAssignment(c, v, m));
    }
  }

  /** One more property: its assignment, if it makes one, goes into the
      result. */
  lemma BuildObjectStep(c: BuildConfig, v: Value, m: nat)
    requires v.Obj? && m < |v.props|
    ensures BuildObjectEntries(c, v, m + 1) ==
      if BuildAssignment(c, v, m) == [] then BuildObjectEntries(c, v, m)
      else Put(BuildObjectEntries(c, v, m), BuildAssignment(c, v, m)[0].0, BuildAssignment(c, v, m)[0].1)
  {
  }

  /** An object builds to its run of assignments: each key holds the built
      field value of the last property admitted under it, keys come in the
      order of their first admission, and with no name admitted twice the
      result is the list of assignments itself. */
  lemma BuildObjectFields(c: BuildConfig, v: Value, top: bool, k: Key)
    requires v.Obj?
    requires top || !c.stopFirstLevel
    ensures BuildValue(c, v, top) == Arr(PutAll(BuildAssignments(c, v, |v.props|)))
    ensures Get(BuildValue(c, v, top).entries, k) == LastValue(BuildAssignments(c, v, |v.props|), k)
    ensures Keys(BuildValue(c, v, top).entries) == FirstKeys(Keys(BuildAssignments(c, v, |v.props|)))
    ensures UniqueKeys(BuildAssignments(c, v, |v.props|)) ==> BuildValue(c, v, top) == Arr(BuildAssignments(c, v, |v.props|))
  {
    var asg := BuildAssignments(c, v, |v.props|);
    BuildObjectRun(c, v, top);
    PutAllGet(asg, k);
    PutAllKeys(asg);
    if UniqueKeys(asg) {
      PutAllDistinct(asg);
    }
  }

  lemma BuildObjectRun(c: BuildConfig, v: Value, top: bool)
    requires v.Obj?
    requires top || !c.stopFirstLevel
    ensures BuildValue(c, v, top) == Arr(PutAll(BuildAssignments(c, v, |v.props|)))
  {
    BuildObjectIsPutAll(c, v, |v.props|);
  }

  /** A value in which every object property is public: no getter decides
      anything. */
  predicate PublicOnly(v: Value)
    decreases v
  {
    match v
    case Arr(es) => forall i :: 0 <= i < |es| ==> PublicOnly(es[i].1)
    case Std(es) => forall i :: 0 <= i < |es| ==> PublicOnly(es[i].1)
    case Obj(_, props, _) => forall i :: 0 <= i < |props| ==> props[i].0.Public? && PublicOnly(props[i].1)
    case _ => true
  }

  /** On values whose objects have public properties only, the older
      normaliser and `Serialize` with its default settings agree, with
      stop-at-first-level on or off alike. */
  lemma {:induction false} SerializersAgree(stop: bool, v: Value, top: bool)
    requires PublicOnly(v)
    ensures Normalize(DefaultConfig.(stopAtFirstLevel := stop), v, top, None)
         == BuildValue(DefaultBuildConfig.(stopFirstLevel := stop), v, top)
    decreases v, 1
  {
    if !(stop && !top) {
      match v
      case Arr(es) => ArraysAgree(stop, v, |es|);
      case Std(es) => ArraysAgree(stop, v, |es|);
      case Obj(_, props, _) => ObjectsAgree(stop, v, |props|);
      case _ =>
    }
  }

  lemma {:induction false} ArraysAgree(stop: bool, v: Value, n: nat)
    requires v.Arr? || v.Std?
    requires n <= |v.entries|
    requires PublicOnly(v)
    ensures ArrayEntries(DefaultConfig.(stopAtFirstLevel := stop), v, n)
         == BuildEntries(DefaultBuildConfig.(stopFirstLevel := stop), v, n)
    decreases v, 0, n
  {
    if n > 0 {
      var m := n - 1;
      ArraysAgree(stop, v, m);
      assert PublicOnly(v.entries[m].1);
      SerializersAgree(stop, v.entries[m].1, false);
      ArraysAgreeStep(DefaultConfig.(stopAtFirstLevel := stop), DefaultBuildConfig.(stopFirstLevel := stop), v, m);
    }
  }

  /** One entry of an array under settings that keep nulls and ignore
      nothing: both normalisers assign the same converted value. */
  lemma ArraysAgreeStep(c: Config, b: BuildConfig, v: Value, m: nat)
    requires v.Arr? || v.Std?
    requires m < |v.entries|
    requires c.ignore == [] && c.serializeNull
    requires ArrayEntries(c, v, m) == BuildEntries(b, v, m)
    requires Normalize(c, v.entries[m].1, false, None) == BuildValue(b, v.entries[m].1, false)
    ensures ArrayEntries(c, v, m + 1) == BuildEntries(b, v, m + 1)
  {
    assert !KeyIn(v.entries[m].0, c.ignore);
  }

  lemma {:induction false} ObjectsAgree(stop: bool, v: Value, n: nat)
    requires v.Obj?
    requires n <= |v.props|
    requires PublicOnly(v)
    ensures ObjectEntries(DefaultConfig.(stopAtFirstLevel := stop), v, n, None)
         == BuildObjectEntries(DefaultBuildConfig.(stopFirstLevel := stop), v, n)
    decreases v, 0, n
  {
    if n > 0 {
      var m := n - 1;
      ObjectsAgree(stop, v, m);
      assert v.props[m].0.Public? && PublicOnly(v.props[m].1);
      SerializersAgree(stop, v.props[m].1, false);
      ObjectsAgreeStep(DefaultConfig.(stopAtFirstLevel := stop), DefaultBuildConfig.(stopFirstLevel := stop), v, m);
    }
  }

  /** One public property under settings that keep nulls and ignore
      nothing: both normalisers assign the same converted value. */
  lemma ObjectsAgreeStep(c: Config, b: BuildConfig, v: Value, m: nat)
    requires v.Obj?
    requires m < |v.props|
    requires v.props[m].0.Public?
    requires c.ignore == [] && c.serializeNull
    requires ObjectEntries(c, v, m, None) == BuildObjectEntries(b, v, m)
    requires Normalize(c, v.props[m].1, false, None) == BuildValue(b, v.props[m].1, false)
    ensures ObjectEntries(c, v, m + 1, None) == BuildObjectEntries(b, v, m + 1)
  {
    var name := v.props[m].0.name;
    var p := Normalize(c, v.props[m].1, false, None);
    assert !KeyIn(StrKey(name), c.ignore);
    assert Hooked(None, name, p) == p;
  }
}

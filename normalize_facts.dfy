/** Properties of the serializer's normalisation. */
module NormalizeFacts {
  import opened Text
  import opened PhpValue
  import opened Normalization

  /** One level of a normalised array: PHP-array keys (each once), none of
      them on the ignore list, and no null value when nulls are not kept. */
  predicate Shaped(c: Config, es: seq<(Key, Value)>)
  {
    UniqueKeys(es)
    && (forall i :: 0 <= i < |es| ==> !KeyIn(es[i].0, c.ignore))
    && (!c.serializeNull ==> forall i :: 0 <= i < |es| ==> !es[i].1.Null?)
  }

  /** A fully normalised value: nested arrays all shaped, no `stdClass` left,
      objects only where the do-not-parse list keeps them, and only strings
      as scalars when only-string is on. */
  predicate WellFormed(c: Config, r: Value)
  {
    match r
    case Arr(es) => Shaped(c, es) && forall i :: 0 <= i < |es| ==> WellFormed(c, es[i].1)
    case Std(_) => false
    case Obj(cls, _, _) => Unparsed(c, cls)
    case _ => c.onlyString ==> r.Str?
  }

  predicate AllWellFormed(c: Config, es: seq<(Key, Value)>)
  {
    forall i :: 0 <= i < |es| ==> WellFormed(c, es[i].1)
  }

  /** Adding one parsed value to a shaped, well-formed accumulator the way
      `parseArray` does keeps it shaped and well-formed. */
  lemma AssignKeepsShape(c: Config, acc: seq<(Key, Value)>, k: Key, p: Value)
    requires Shaped(c, acc) && AllWellFormed(c, acc)
    requires !KeyIn(k, c.ignore) && WellFormed(c, p)
    ensures var r := if p.Null? && !c.serializeNull then Remove(Put(acc, k, p), k) else Put(acc, k, p);
      Shaped(c, r) && AllWellFormed(c, r)
  {
    var put := Put(acc, k, p);
    PutKeepsUnique(acc, k, p);
    PutShape(acc, k, p);
    if p.Null? && !c.serializeNull {
      var r := Remove(put, k);
      RemoveKeepsUnique(put, k);
      forall i | 0 <= i < |r|
        ensures !KeyIn(r[i].0, c.ignore) && !r[i].1.Null? && WellFormed(c, r[i].1)
      {
        assert r[i] in put;
        assert r[i].0 != k;
      }
    }
  }

  lemma {:induction false} ArrayEntriesWellFormed(c: Config, v: Value, n: nat)
    requires !c.stopAtFirstLevel
    requires v.Arr? || v.Std?
    requires n <= |v.entries|
    ensures Shaped(c, ArrayEntries(c, v, n)) && AllWellFormed(c, ArrayEntries(c, v, n))
    decreases v, 0, n
  {
    if n > 0 {
      var m := n - 1;
      ArrayEntriesWellFormed(c, v, m);
      ArrayEntriesStep(c, v, m);
      var k := v.entries[m].0;
      if !KeyIn(k, c.ignore) {
        NormalizeWellFormed(c, v.entries[m].1, false);
        AssignKeepsShape(c, ArrayEntries(c, v, m), k, Normalize(c, v.entries[m].1, false, None));
      }
    }
  }

  lemma KeepKeepsShape(c: Config, acc: seq<(Key, Value)>, name: string, p: Value)
    requires Shaped(c, acc) && AllWellFormed(c, acc)
    requires !KeyIn(StrKey(name), c.ignore) && WellFormed(c, p)
    ensures Shaped(c, Keep(c, acc, name, p)) && AllWellFormed(c, Keep(c, acc, name, p))
  {
    if !(p.Null? && !c.serializeNull) {
      AssignKeepsShape(c, acc, StrKey(name), p);
    }
  }

  lemma {:induction false} ObjectEntriesWellFormed(c: Config, v: Value, n: nat)
    requires !c.stopAtFirstLevel
    requires v.Obj?
    requires n <= |v.props|
    ensures Shaped(c, ObjectEntries(c, v, n, None)) && AllWellFormed(c, ObjectEntries(c, v, n, None))
    decreases v, 0, n
  {
    if n > 0 {
      ObjectEntriesWellFormed(c, v, n - 1);
      var acc := ObjectEntries(c, v, n - 1, None);
      match v.props[n - 1].0
      case Public(name) =>
        if !KeyIn(StrKey(name), c.ignore) {
          NormalizeWellFormed(c, v.props[n - 1].1, false);
          KeepKeepsShape(c, acc, name, Normalize(c, v.props[n - 1].1, false, None));
        }
      case Hidden(name) =>
        var prop := CleanName(c.pattern, name);
        match FindMethod(v.methods, c.getPrefix + prop)
        case None =>
        case Some(j) =>
          if !KeyIn(StrKey(prop), c.ignore) {
            NormalizeWellFormed(c, v.methods[j].result, false);
            KeepKeepsShape(c, acc, prop, Normalize(c, v.methods[j].result, false, None));
          }
    }
  }

  /** Without stop-at-first-level and without an attribute hook, the whole
      result is normalised: every nested array has unique keys, none of them
      ignored, no nulls when nulls are not kept, no `stdClass` and no object
      outside the do-not-parse list, and only strings under only-string. */
  lemma {:induction false} NormalizeWellFormed(c: Config, v: Value, top: bool)
    requires !c.stopAtFirstLevel
    ensures WellFormed(c, Normalize(c, v, top, None))
    decreases v, 1
  {
    match v
    case Arr(es) => ArrayEntriesWellFormed(c, v, |es|);
    case Std(es) => ArrayEntriesWellFormed(c, v, |es|);
    case Obj(cls, props, _) =>
      if !Unparsed(c, cls) {
        ObjectEntriesWellFormed(c, v, |props|);
      }
    case _ =>
  }

  // ---------------------------------------------------------------------
  // One level, whatever the settings

  lemma AssignShaped(c: Config, acc: seq<(Key, Value)>, k: Key, p: Value)
    requires Shaped(c, acc) && !KeyIn(k, c.ignore)
    ensures var r := if p.Null? && !c.serializeNull then Remove(Put(acc, k, p), k) else Put(acc, k, p);
      Shaped(c, r)
  {
    var put := Put(acc, k, p);
    PutKeepsUnique(acc, k, p);
    PutShape(acc, k, p);
    if p.Null? && !c.serializeNull {
      var r := Remove(put, k);
      RemoveKeepsUnique(put, k);
      forall i | 0 <= i < |r|
        ensures !KeyIn(r[i].0, c.ignore) && !r[i].1.Null?
      {
        assert r[i] in put;
        assert r[i].0 != k;
      }
    }
  }

  /** One more entry of `parseArray`'s loop, spelled out. */
  lemma ArrayEntriesStep(c: Config, v: Value, m: nat)
    requires v.Arr? || v.Std?
    requires m < |v.entries|
    ensures var k := v.entries[m].0;
      var acc := ArrayEntries(c, v, m);
      var p := Normalize(c, v.entries[m].1, false, None);
      ArrayEntries(c, v, m + 1)
        == if KeyIn(k, c.ignore) then acc
           else if p.Null? && !c.serializeNull then Remove(Put(acc, k, p), k) else Put(acc, k, p)
  {
  }

  /** Every array `parseArray` returns is shaped, stop-at-first-level or not. */
  lemma {:induction false} ArrayEntriesShaped(c: Config, v: Value, n: nat)
    requires v.Arr? || v.Std?
    requires n <= |v.entries|
    ensures Shaped(c, ArrayEntries(c, v, n))
  {
    if n > 0 {
      var m := n - 1;
      ArrayEntriesShaped(c, v, m);
      ArrayEntriesStep(c, v, m);
      var k := v.entries[m].0;
      if !KeyIn(k, c.ignore) {
        AssignShaped(c, ArrayEntries(c, v, m), k, Normalize(c, v.entries[m].1, false, None));
      }
    }
  }

  /** Every array `parseObject` returns is shaped, also when the attribute
      callback rewrites the values: the null check comes after it. */
  lemma {:induction false} ObjectEntriesShaped(c: Config, v: Value, n: nat, hook: Option<AttributeHook>)
    requires v.Obj?
    requires n <= |v.props|
    ensures Shaped(c, ObjectEntries(c, v, n, hook))
  {
    if n > 0 {
      ObjectEntriesShaped(c, v, n - 1, hook);
      var acc := ObjectEntries(c, v, n - 1, hook);
      match v.props[n - 1].0
      case Public(name) =>
        if !KeyIn(StrKey(name), c.ignore) {
          var p := Hooked(hook, name, Normalize(c, v.props[n - 1].1, false, None));
          if !(p.Null? && !c.serializeNull) {
            AssignShaped(c, acc, StrKey(name), p);
          }
        }
      case Hidden(name) =>
        var prop := CleanName(c.pattern, name);
        match FindMethod(v.methods, c.getPrefix + prop)
        case None =>
        case Some(j) =>
          if !KeyIn(StrKey(prop), c.ignore) {
            var p := Hooked(hook, name, Normalize(c, v.methods[j].result, false, None));
            if !(p.Null? && !c.serializeNull) {
              AssignShaped(c, acc, StrKey(prop), p);
            }
          }
    }
  }

  // ---------------------------------------------------------------------
  // Stop at first level

  /** Under stop-at-first-level the nested values come through untouched:
      every entry of the top array is an entry of the input. */
  lemma {:induction false} StopKeepsArrayValues(c: Config, v: Value, n: nat)
    requires c.stopAtFirstLevel
    requires v.Arr? || v.Std?
    requires n <= |v.entries|
    ensures forall i :: 0 <= i < |ArrayEntries(c, v, n)| ==> ArrayEntries(c, v, n)[i] in v.entries
  {
    if n > 0 {
      var m := n - 1;
      StopKeepsArrayValues(c, v, m);
      ArrayEntriesStep(c, v, m);
      var k := v.entries[m].0;
      if !KeyIn(k, c.ignore) {
        assert Normalize(c, v.entries[m].1, false, None) == v.entries[m].1;
        AssignWithin(c, ArrayEntries(c, v, m), k, v.entries[m].1, v.entries);
      }
    }
  }

  /** An assignment of an entry of `es`, and its `unset`, keep every entry
      of the accumulator among the entries of `es`. */
  lemma AssignWithin(c: Config, acc: seq<(Key, Value)>, k: Key, p: Value, es: seq<(Key, Value)>)
    requires forall i :: 0 <= i < |acc| ==> acc[i] in es
    requires (k, p) in es
    ensures var r := if p.Null? && !c.serializeNull then Remove(Put(acc, k, p), k) else Put(acc, k, p);
      forall i :: 0 <= i < |r| ==> r[i] in es
  {
    var put := Put(acc, k, p);
    PutShape(acc, k, p);
    assert forall i :: 0 <= i < |put| ==> put[i] in es;
  }

  /** Under stop-at-first-level (and without an attribute callback) each
      property assigns its raw value: the nested array or object itself, or
      the getter's result as it was returned. */
  lemma StopKeepsObjectValues(c: Config, v: Value, i: nat)
    requires c.stopAtFirstLevel
    requires v.Obj? && i < |v.props|
    ensures Assignment(c, v, i, None) ==
      match Offered(c, v, i)
      case None => []
      case Some(o) =>
        if KeyIn(StrKey(o.key), c.ignore) || (o.raw.Null? && !c.serializeNull) then []
        else [(StrKey(o.key), o.raw)]
  {
  }

  // ---------------------------------------------------------------------
  // Arrays against a reference definition

  /** What one input entry contributes to the normalised array. */
  function Contribution(c: Config, e: (Key, Value)): seq<(Key, Value)>
  {
    if KeyIn(e.0, c.ignore) then []
    else
      var p := Normalize(c, e.1, false, None);
      if p.Null? && !c.serializeNull then [] else [(e.0, p)]
  }

  /** The reference: each entry in input order, under its own key, with its
      normalised value; ignored keys and dropped nulls left out. */
  function Filtered(c: Config, es: seq<(Key, Value)>): seq<(Key, Value)>
  {
    if es == [] then [] else Contribution(c, es[0]) + Filtered(c, es[1..])
  }

  lemma {:induction false} FilteredAppend(c: Config, a: seq<(Key, Value)>, b: seq<(Key, Value)>)
    ensures Filtered(c, a + b) == Filtered(c, a) + Filtered(c, b)
  {
    if a == [] {
      assert a + b == b;
    } else {
      assert (a + b)[1..] == a[1..] + b;
      FilteredAppend(c, a[1..], b);
    }
  }

  /** The reference keeps no key the input does not have. */
  lemma {:induction false} FilteredKeys(c: Config, es: seq<(Key, Value)>, k: Key)
    ensures HasKey(Filtered(c, es), k) ==> HasKey(es, k)
  {
    if es != [] && HasKey(Filtered(c, es), k) {
      var f := Filtered(c, es);
      var i :| 0 <= i < |f| && f[i].0 == k;
      var head := Contribution(c, es[0]);
      if i < |head| {
        assert es[0].0 == k;
      } else {
        assert Filtered(c, es[1..])[i - |head|].0 == k;
        FilteredKeys(c, es[1..], k);
        var j :| 0 <= j < |es[1..]| && es[1..][j].0 == k;
        assert es[j + 1].0 == k;
      }
    }
  }

  lemma FilteredSnoc(c: Config, es: seq<(Key, Value)>, n: nat)
    requires 0 < n <= |es|
    ensures Filtered(c, es[..n]) == Filtered(c, es[..n - 1]) + Contribution(c, es[n - 1])
  {
    assert es[..n] == es[..n - 1] + [es[n - 1]];
    FilteredAppend(c, es[..n - 1], [es[n - 1]]);
    assert [es[n - 1]][1..] == [];
  }

  /** With distinct keys, the key of entry `n - 1` is not yet in the
      reference result of the entries before it. */
  lemma FilteredPrefixFresh(c: Config, es: seq<(Key, Value)>, n: nat)
    requires 0 < n <= |es|
    requires UniqueKeys(es)
    ensures !HasKey(Filtered(c, es[..n - 1]), es[n - 1].0)
  {
    var pre := es[..n - 1];
    assert forall i :: 0 <= i < |pre| ==> pre[i] == es[i];
    FilteredKeys(c, es[..n - 1], es[n - 1].0);
  }

  /** For an input with distinct keys (every PHP array), `parseArray` yields
      exactly the reference: input order, keys verbatim. */
  lemma {:induction false} ArrayEntriesAreFiltered(c: Config, v: Value, n: nat)
    requires v.Arr? || v.Std?
    requires n <= |v.entries|
    requires UniqueKeys(v.entries)
    ensures ArrayEntries(c, v, n) == Filtered(c, v.entries[..n])
  {
    if n > 0 {
      var es := v.entries;
      ArrayEntriesAreFiltered(c, v, n - 1);
      var acc := ArrayEntries(c, v, n - 1);
      var k := es[n - 1].0;
      FilteredSnoc(c, es, n);
      FilteredPrefixFresh(c, es, n);
      if !KeyIn(k, c.ignore) {
        var p := Normalize(c, es[n - 1].1, false, None);
        if p.Null? && !c.serializeNull {
          RemoveAppended(acc, k, p);
        }
      }
    }
  }

  /** Read to the first level with nothing ignored and nulls kept, every
      entry comes through as it is. */
  lemma {:induction false} FilteredKeepsAll(c: Config, es: seq<(Key, Value)>)
    requires c.stopAtFirstLevel && c.serializeNull && c.ignore == []
    ensures Filtered(c, es) == es
  {
    if es != [] {
      FilteredKeepsAll(c, es[1..]);
      assert !KeyIn(es[0].0, c.ignore);
      assert Contribution(c, es[0]) == [es[0]];
    }
  }

  /** The normalisation of an array or `stdClass` with distinct keys is the
      reference filtered array. */
  lemma NormalizeArray(c: Config, v: Value, top: bool, hook: Option<AttributeHook>)
    requires v.Arr? || v.Std?
    requires UniqueKeys(v.entries)
    requires top || !c.stopAtFirstLevel
    ensures Normalize(c, v, top, hook) == Arr(Filtered(c, v.entries))
  {
    ArrayEntriesAreFiltered(c, v, |v.entries|);
    assert v.entries[..|v.entries|] == v.entries;
  }

  // ---------------------------------------------------------------------
  // Objects against a reference definition

  /** What property `i` offers before any filtering: the name it would be
      published under, the name the attribute callback looks it up by, and
      the value read for it. */
  datatype Offer = Offer(key: string, attrName: string, raw: Value)

  /** A public property offers its own value under its own name. A hidden
      one offers the result of the getter `getPrefix + cleaned name` under
      the cleaned name, and nothing when no such method exists. */
  function Offered(c: Config, v: Value, i: nat): (r: Option<Offer>)
    requires v.Obj? && i < |v.props|
    ensures v.props[i].0.Public? ==> r == Some(Offer(v.props[i].0.name, v.props[i].0.name, v.props[i].1))
    ensures v.props[i].0.Hidden? ==> r.Some? ==> r.value.attrName == v.props[i].0.name
    ensures r.Some? ==> r.value.raw == v.props[i].1 || exists j :: 0 <= j < |v.methods| && v.methods[j].result == r.value.raw
  {
    match v.props[i].0
    case Public(name) => Some(Offer(name, name, v.props[i].1))
    case Hidden(name) =>
      var prop := CleanName(c.pattern, name);
      match FindMethod(v.methods, c.getPrefix + prop)
      case None => None
      case Some(j) => Some(Offer(prop, name, v.methods[j].result))
  }

  /** The assignment property `i` makes, if any: none when it offers
      nothing, when its name is ignored, or when its value (normalised, then
      passed through the callback) is a null that is dropped. */
  function Assignment(c: Config, v: Value, i: nat, hook: Option<AttributeHook>): seq<(Key, Value)>
    requires v.Obj? && i < |v.props|
  {
    match Offered(c, v, i)
    case None => []
    case Some(o) =>
      if KeyIn(StrKey(o.key), c.ignore) then []
      else
        var p := Hooked(hook, o.attrName, Normalize(c, o.raw, false, None));
        if p.Null? && !c.serializeNull then [] else [(StrKey(o.key), p)]
  }

  /** The assignments of the first `n` properties, in declaration order. */
  function Assignments(c: Config, v: Value, n: nat, hook: Option<AttributeHook>): seq<(Key, Value)>
    requires v.Obj? && n <= |v.props|
  {
    if n == 0 then [] else Assignments(c, v, n - 1, hook) + Assignment(c, v, n - 1, hook)
  }

  /** `parseObject` makes exactly the assignments of its properties, one
      after another. */
  lemma {:induction false} ObjectEntriesArePutAll(c: Config, v: Value, n: nat, hook: Option<AttributeHook>)
    requires v.Obj?
    requires n <= |v.props|
    ensures ObjectEntries(c, v, n, hook) == PutAll(Assignments(c, v, n, hook))
  {
    if n > 0 {
      var m := n - 1;
      ObjectEntriesArePutAll(c, v, m, hook);
      PutAllStep(c, v, m, hook);
    }
  }

  /** One more property adds its assignment, if any. */
  lemma AssignmentsStep(c: Config, v: Value, m: nat, hook: Option<AttributeHook>)
    requires v.Obj? && m < |v.props|
    ensures Assignments(c, v, m + 1, hook) == Assignments(c, v, m, hook) + Assignment(c, v, m, hook)
  {
  }

  lemma PutAllStep(c: Config, v: Value, m: nat, hook: Option<AttributeHook>)
    requires v.Obj? && m < |v.props|
    requires ObjectEntries(c, v, m, hook) == PutAll(Assignments(c, v, m, hook))
    ensures ObjectEntries(c, v, m + 1, hook) == PutAll(Assignments(c, v, m + 1, hook))
  {
    ObjectEntriesStep(c, v, m, hook);
    AssignmentsStep(c, v, m, hook);
    PutAllSnoc(Assignments(c, v, m, hook), Assignment(c, v, m, hook));
  }

  /** One more property: its assignment, if it makes one, goes into the
      result; otherwise the result stays as it is. */
  lemma ObjectEntriesStep(c: Config, v: Value, m: nat, hook: Option<AttributeHook>)
    requires v.Obj?
    requires m < |v.props|
    ensures |Assignment(c, v, m, hook)| <= 1
    ensures ObjectEntries(c, v, m + 1, hook) ==
      if Assignment(c, v, m, hook) == [] then ObjectEntries(c, v, m, hook)
      else Put(ObjectEntries(c, v, m, hook), Assignment(c, v, m, hook)[0].0, Assignment(c, v, m, hook)[0].1)
  {
  }

  /** The normalisation of an object that is parsed is its run of
      assignments. */
  lemma NormalizeObject(c: Config, v: Value, top: bool, hook: Option<AttributeHook>)
    requires v.Obj? && !Unparsed(c, v.cls)
    requires top || !c.stopAtFirstLevel
    ensures Normalize(c, v, top, hook) == Arr(PutAll(Assignments(c, v, |v.props|, hook)))
  {
    ObjectEntriesArePutAll(c, v, |v.props|, hook);
  }

  /** Each key of a parsed object holds the value of the last property that
      assigns it: a later property of the same name overwrites in place. */
  lemma ObjectValue(c: Config, v: Value, top: bool, hook: Option<AttributeHook>, k: Key)
    requires v.Obj? && !Unparsed(c, v.cls)
    requires top || !c.stopAtFirstLevel
    ensures Get(Normalize(c, v, top, hook).entries, k) == LastValue(Assignments(c, v, |v.props|, hook), k)
  {
    NormalizeObject(c, v, top, hook);
    PutAllGet(Assignments(c, v, |v.props|, hook), k);
  }

  /** The keys of a parsed object come in the order of their first
      assignment, that is, in property order. */
  lemma ObjectOrder(c: Config, v: Value, top: bool, hook: Option<AttributeHook>)
    requires v.Obj? && !Unparsed(c, v.cls)
    requires top || !c.stopAtFirstLevel
    ensures Keys(Normalize(c, v, top, hook).entries) == FirstKeys(Keys(Assignments(c, v, |v.props|, hook)))
  {
    NormalizeObject(c, v, top, hook);
    PutAllKeys(Assignments(c, v, |v.props|, hook));
  }

  /** When no two properties assign the same name, a parsed object is
      exactly its list of assignments. */
  lemma ObjectDistinct(c: Config, v: Value, top: bool, hook: Option<AttributeHook>)
    requires v.Obj? && !Unparsed(c, v.cls)
    requires top || !c.stopAtFirstLevel
    requires UniqueKeys(Assignments(c, v, |v.props|, hook))
    ensures Normalize(c, v, top, hook) == Arr(Assignments(c, v, |v.props|, hook))
  {
    NormalizeObject(c, v, top, hook);
    PutAllDistinct(Assignments(c, v, |v.props|, hook));
  }

  /** Every assignment is made under the name some property offers. */
  lemma {:induction false} AssignmentsOffered(c: Config, v: Value, n: nat, hook: Option<AttributeHook>)
    requires v.Obj? && n <= |v.props|
    ensures forall e :: e in Assignments(c, v, n, hook) ==>
      exists i :: 0 <= i < n && Offered(c, v, i).Some? && e.0 == StrKey(Offered(c, v, i).value.key)
  {
    if n > 0 {
      AssignmentsOffered(c, v, n - 1, hook);
    }
  }

  /** The properties of `v` offer distinct names. */
  predicate OffersDistinct(c: Config, v: Value)
    requires v.Obj?
  {
    forall i, j :: 0 <= i < j < |v.props| && Offered(c, v, i).Some? && Offered(c, v, j).Some? ==>
      Offered(c, v, i).value.key != Offered(c, v, j).value.key
  }

  /** When the properties offer distinct names, no name is assigned twice. */
  lemma {:induction false} AssignmentsUnique(c: Config, v: Value, n: nat, hook: Option<AttributeHook>)
    requires v.Obj? && n <= |v.props|
    requires OffersDistinct(c, v)
    ensures UniqueKeys(Assignments(c, v, n, hook))
  {
    if n > 0 {
      var m := n - 1;
      AssignmentsUnique(c, v, m, hook);
      AssignmentsUniqueStep(c, v, m, hook);
    }
  }

  lemma AssignmentsUniqueStep(c: Config, v: Value, m: nat, hook: Option<AttributeHook>)
    requires v.Obj? && m < |v.props|
    requires OffersDistinct(c, v)
    requires UniqueKeys(Assignments(c, v, m, hook))
    ensures UniqueKeys(Assignments(c, v, m + 1, hook))
  {
    AssignmentsOffered(c, v, m, hook);
    var pre := Assignments(c, v, m, hook);
    var last := Assignment(c, v, m, hook);
    assert Assignments(c, v, m + 1, hook) == pre + last;
    if last != [] {
      forall x | 0 <= x < |pre| ensures pre[x].0 != last[0].0 {
        assert pre[x] in pre;
      }
    }
  }

  // ---------------------------------------------------------------------
  // Which properties of an object are published

  /** Property `i` of object `v` is published under key `k`: it is public
      and named `k`, or it is hidden, its cleaned name is `k` and the getter
      for that name exists; `k` is not ignored; and its value after the
      attribute callback is not a null that is dropped. */
  predicate Publishes(c: Config, v: Value, i: nat, hook: Option<AttributeHook>, k: Key)
    requires v.Obj? && i < |v.props|
  {
    match v.props[i].0
    case Public(name) =>
      k == StrKey(name) && !KeyIn(k, c.ignore)
      && var p := Hooked(hook, name, Normalize(c, v.props[i].1, false, None));
      !(p.Null? && !c.serializeNull)
    case Hidden(name) =>
      var prop := CleanName(c.pattern, name);
      k == StrKey(prop) && !KeyIn(k, c.ignore)
      && match FindMethod(v.methods, c.getPrefix + prop)
        case None => false
        case Some(j) =>
          var p := Hooked(hook, name, Normalize(c, v.methods[j].result, false, None));
          !(p.Null? && !c.serializeNull)
  }

  lemma KeepKeys(c: Config, acc: seq<(Key, Value)>, name: string, p: Value, k: Key)
    ensures HasKey(Keep(c, acc, name, p), k) <==> HasKey(acc, k) || (k == StrKey(name) && !(p.Null? && !c.serializeNull))
  {
    if !(p.Null? && !c.serializeNull) {
      PutKeys(acc, StrKey(name), p, k);
    }
  }

  /** `parseObject` publishes a key exactly when some property publishes it. */
  lemma {:induction false} ObjectKeys(c: Config, v: Value, n: nat, hook: Option<AttributeHook>, k: Key)
    requires v.Obj?
    requires n <= |v.props|
    ensures HasKey(ObjectEntries(c, v, n, hook), k) <==> exists i :: 0 <= i < n && Publishes(c, v, i, hook, k)
  {
    if n > 0 {
      var m := n - 1;
      ObjectKeys(c, v, m, hook, k);
      ObjectKeysStep(c, v, m, hook, k);
      PublishesUpTo(c, v, m, hook, k);
    }
  }

  lemma PublishesUpTo(c: Config, v: Value, m: nat, hook: Option<AttributeHook>, k: Key)
    requires v.Obj? && m < |v.props|
    ensures (exists i :: 0 <= i < m + 1 && Publishes(c, v, i, hook, k))
       <==> (exists i :: 0 <= i < m && Publishes(c, v, i, hook, k)) || Publishes(c, v, m, hook, k)
  {
  }

  /** One more property adds exactly the key it publishes, if any. */
  lemma ObjectKeysStep(c: Config, v: Value, m: nat, hook: Option<AttributeHook>, k: Key)
    requires v.Obj?
    requires m < |v.props|
    ensures HasKey(ObjectEntries(c, v, m + 1, hook), k) <==> HasKey(ObjectEntries(c, v, m, hook), k) || Publishes(c, v, m, hook, k)
  {
    var acc := ObjectEntries(c, v, m, hook);
    match v.props[m].0 {
      case Public(name) =>
        if !KeyIn(StrKey(name), c.ignore) {
          KeepKeys(c, acc, name, Hooked(hook, name, Normalize(c, v.props[m].1, false, None)), k);
        }
      case Hidden(name) =>
        var prop := CleanName(c.pattern, name);
        match FindMethod(v.methods, c.getPrefix + prop) {
          case None =>
          case Some(j) =>
            if !KeyIn(StrKey(prop), c.ignore) {
              KeepKeys(c, acc, prop, Hooked(hook, name, Normalize(c, v.methods[j].result, false, None)), k);
            }
        }
    }
  }

  /** The default name pattern keeps letters and digits only: on a name made
      of letters, digits and underscores it just drops the underscores
      (`_id_model` is published as `idmodel`). */
  lemma {:induction false} DefaultPatternDropsUnderscores(s: string)
    requires forall i :: 0 <= i < |s| ==> IsAlnum(s[i]) || s[i] == '_'
    ensures CleanName(DefaultConfig.pattern, s) == StripUnderscores(s)
    decreases |s|
  {
    if s != [] {
      DefaultPatternDropsUnderscores(s[1..]);
    }
  }

  // ---------------------------------------------------------------------
  // Idempotence

  /** A normalised value is left as it is by a second normalisation, with
      any settings that make it well formed. */
  lemma {:induction false} WellFormedIsFixed(c: Config, r: Value, top: bool, hook: Option<AttributeHook>)
    requires WellFormed(c, r)
    ensures Normalize(c, r, top, hook) == r
    decreases r, 1
  {
    if !(c.stopAtFirstLevel && !top) {
      match r
      case Arr(es) =>
        NormalizeArray(c, r, top, hook);
        FilteredFixed(c, r, |es|);
        assert es[..|es|] == es;
      case Obj(_, _, _) =>
      case _ =>
    }
  }

  lemma {:induction false} FilteredFixed(c: Config, r: Value, n: nat)
    requires r.Arr? && WellFormed(c, r)
    requires n <= |r.entries|
    ensures Filtered(c, r.entries[..n]) == r.entries[..n]
    decreases r, 0, n
  {
    if n > 0 {
      var es := r.entries;
      var e := es[n - 1];
      FilteredFixed(c, r, n - 1);
      FilteredSnoc(c, es, n);
      WellFormedIsFixed(c, e.1, false, None);
      assert Contribution(c, e) == [e];
      assert es[..n] == es[..n - 1] + [e];
    }
  }

  /** Normalising twice is normalising once. */
  lemma NormalizeIdempotent(c: Config, v: Value, top: bool, top2: bool, hook2: Option<AttributeHook>)
    requires !c.stopAtFirstLevel
    ensures Normalize(c, Normalize(c, v, top, None), top2, hook2) == Normalize(c, v, top, None)
  {
    NormalizeWellFormed(c, v, top);
    WellFormedIsFixed(c, Normalize(c, v, top, None), top2, hook2);
  }

  /** Under stop-at-first-level a top-level normalisation is also a fixed
      point: its entries are shaped and their values, below the top, are
      left as they are. */
  lemma StopIdempotent(c: Config, v: Value, top2: bool, hook2: Option<AttributeHook>)
    requires c.stopAtFirstLevel
    ensures Normalize(c, Normalize(c, v, true, None), top2, hook2) == Normalize(c, v, true, None)
  {
    var r := Normalize(c, v, true, None);
    if top2 {
      match v {
        case Arr(es) => ArrayEntriesShaped(c, v, |es|);
        case Std(es) => ArrayEntriesShaped(c, v, |es|);
        case Obj(cls, props, _) =>
          if !Unparsed(c, cls) {
            ObjectEntriesShaped(c, v, |props|, None);
          }
        case _ =>
      }
      if r.Arr? {
        NormalizeArray(c, r, true, hook2);
        ShapedIsFixed(c, r.entries, |r.entries|);
        assert r.entries[..|r.entries|] == r.entries;
      }
    }
  }

  lemma {:induction false} ShapedIsFixed(c: Config, es: seq<(Key, Value)>, n: nat)
    requires c.stopAtFirstLevel && Shaped(c, es)
    requires n <= |es|
    ensures Filtered(c, es[..n]) == es[..n]
  {
    if n > 0 {
      var e := es[n - 1];
      ShapedIsFixed(c, es, n - 1);
      FilteredSnoc(c, es, n);
      assert Contribution(c, e) == [e];
      assert es[..n] == es[..n - 1] + [e];
    }
  }

  // ---------------------------------------------------------------------
  // Keeping nulls against dropping them

  /** The value with every null entry of every nested array taken out. */
  function DropNulls(r: Value): (d: Value)
    ensures d.Null? <==> r.Null?
    ensures !r.Arr? ==> d == r
    decreases r, 1
  {
    match r
    case Arr(es) => Arr(DroppedEntries(r, |es|))
    case _ => r
  }

  /** The first `n` entries of the array `r` with the nulls taken out. */
  function DroppedEntries(r: Value, n: nat): seq<(Key, Value)>
    requires r.Arr? && n <= |r.entries|
    decreases r, 0, n
  {
    if n == 0 then [] else DroppedEntries(r, n - 1) + DropEntry(r.entries[n - 1])
  }

  function DropEntry(e: (Key, Value)): seq<(Key, Value)>
  {
    if e.1.Null? then [] else [(e.0, DropNulls(e.1))]
  }

  /** Nulls taken out of a list of entries, one entry at a time. */
  function DropAll(es: seq<(Key, Value)>): seq<(Key, Value)>
  {
    if es == [] then [] else DropAll(es[..|es| - 1]) + DropEntry(es[|es| - 1])
  }

  lemma {:induction false} DroppedIsDropAll(r: Value, n: nat)
    requires r.Arr? && n <= |r.entries|
    ensures DroppedEntries(r, n) == DropAll(r.entries[..n])
  {
    if n > 0 {
      DroppedIsDropAll(r, n - 1);
      assert r.entries[..n][..n - 1] == r.entries[..n - 1];
    }
  }

  lemma {:induction false} DropAllAppend(a: seq<(Key, Value)>, b: seq<(Key, Value)>)
    ensures DropAll(a + b) == DropAll(a) + DropAll(b)
    decreases |b|
  {
    if b == [] {
      assert a + b == a;
    } else {
      var b' := b[..|b| - 1];
      assert (a + b)[..|a + b| - 1] == a + b';
      DropAllAppend(a, b');
    }
  }

  /** Every object in `v`, however deep, offers distinct names, and every
      array in it has distinct keys. */
  predicate DistinctNames(c: Config, v: Value)
    decreases v
  {
    match v
    case Arr(es) => UniqueKeys(es) && forall i :: 0 <= i < |es| ==> DistinctNames(c, es[i].1)
    case Std(es) => UniqueKeys(es) && forall i :: 0 <= i < |es| ==> DistinctNames(c, es[i].1)
    case Obj(_, props, methods) =>
      OffersDistinct(c, v)
      && (forall i :: 0 <= i < |props| ==> DistinctNames(c, props[i].1))
      && (forall j :: 0 <= j < |methods| ==> DistinctNames(c, methods[j].result))
    case _ => true
  }

  /** With nulls dropped, the result is the result with nulls kept, with
      every null entry taken out at every depth and nothing else changed.
      It needs every object to offer distinct names: when two properties
      publish the same name, a kept null overwrites the earlier value while
      a dropped one leaves it (`NullFilterCollision`). */
  lemma {:induction false} NullSymmetry(c: Config, v: Value, top: bool)
    requires !c.stopAtFirstLevel && !c.serializeNull
    requires DistinctNames(c, v)
    ensures Normalize(c, v, top, None) == DropNulls(Normalize(c.(serializeNull := true), v, top, None))
    decreases v, 1
  {
    var ck := c.(serializeNull := true);
    match v
    case Arr(es) => ArraysSymmetric(c, v);
    case Std(es) => ArraysSymmetric(c, v);
    case Obj(cls, props, _) =>
      if !Unparsed(c, cls) {
        ObjectsSymmetric(c, v);
      }
    case _ =>
  }

  lemma ArraysSymmetric(c: Config, v: Value)
    requires !c.stopAtFirstLevel && !c.serializeNull
    requires v.Arr? || v.Std?
    requires DistinctNames(c, v)
    ensures Arr(ArrayEntries(c, v, |v.entries|)) == DropNulls(Arr(ArrayEntries(c.(serializeNull := true), v, |v.entries|)))
    decreases v, 0
  {
    var ck := c.(serializeNull := true);
    var es := v.entries;
    ArrayEntriesAreFiltered(c, v, |es|);
    ArrayEntriesAreFiltered(ck, v, |es|);
    FilteredSymmetric(c, v, |es|);
    var kept := Filtered(ck, es[..|es|]);
    DroppedIsDropAll(Arr(kept), |kept|);
    assert kept[..|kept|] == kept;
  }

  lemma {:induction false} FilteredSymmetric(c: Config, v: Value, n: nat)
    requires !c.stopAtFirstLevel && !c.serializeNull
    requires v.Arr? || v.Std?
    requires DistinctNames(c, v)
    requires n <= |v.entries|
    ensures Filtered(c, v.entries[..n]) == DropAll(Filtered(c.(serializeNull := true), v.entries[..n]))
    decreases v, 0, n
  {
    if n > 0 {
      var e := v.entries[n - 1];
      FilteredSymmetric(c, v, n - 1);
      assert DistinctNames(c, e.1);
      NullSymmetry(c, e.1, false);
      ContributionSymmetric(c, e);
      FilteredSymmetricStep(c, v.entries, n);
    }
  }

  lemma FilteredSymmetricStep(c: Config, es: seq<(Key, Value)>, n: nat)
    requires 0 < n <= |es|
    requires Filtered(c, es[..n - 1]) == DropAll(Filtered(c.(serializeNull := true), es[..n - 1]))
    requires Contribution(c, es[n - 1]) == DropAll(Contribution(c.(serializeNull := true), es[n - 1]))
    ensures Filtered(c, es[..n]) == DropAll(Filtered(c.(serializeNull := true), es[..n]))
  {
    var ck := c.(serializeNull := true);
    FilteredSnoc(c, es, n);
    FilteredSnoc(ck, es, n);
    DropAllAppend(Filtered(ck, es[..n - 1]), Contribution(ck, es[n - 1]));
  }

  lemma ContributionSymmetric(c: Config, e: (Key, Value))
    requires !c.serializeNull
    requires Normalize(c, e.1, false, None) == DropNulls(Normalize(c.(serializeNull := true), e.1, false, None))
    ensures Contribution(c, e) == DropAll(Contribution(c.(serializeNull := true), e))
  {
    var ck := c.(serializeNull := true);
    var pk := Normalize(ck, e.1, false, None);
    assert DropAll([(e.0, pk)]) == DropEntry((e.0, pk)) by {
      assert [(e.0, pk)][..0] == [];
    }
  }

  /** When the properties offer distinct names, `parseObject` gives the list
      of assignments itself. */
  lemma ObjectEntriesDistinct(c: Config, v: Value, hook: Option<AttributeHook>)
    requires v.Obj? && OffersDistinct(c, v)
    ensures ObjectEntries(c, v, |v.props|, hook) == Assignments(c, v, |v.props|, hook)
  {
    ObjectEntriesArePutAll(c, v, |v.props|, hook);
    AssignmentsUnique(c, v, |v.props|, hook);
    PutAllDistinct(Assignments(c, v, |v.props|, hook));
  }

  /** What a property offers does not depend on the null setting. */
  lemma OffersDistinctKept(c: Config, v: Value)
    requires v.Obj? && OffersDistinct(c, v)
    ensures OffersDistinct(c.(serializeNull := true), v)
  {
    forall i | 0 <= i < |v.props| ensures Offered(c.(serializeNull := true), v, i) == Offered(c, v, i) { }
  }

  lemma ObjectsSymmetric(c: Config, v: Value)
    requires !c.stopAtFirstLevel && !c.serializeNull
    requires v.Obj?
    requires DistinctNames(c, v)
    ensures Arr(ObjectEntries(c, v, |v.props|, None)) == DropNulls(Arr(ObjectEntries(c.(serializeNull := true), v, |v.props|, None)))
    decreases v, 0
  {
    var ck := c.(serializeNull := true);
    var n := |v.props|;
    ObjectEntriesDistinct(c, v, None);
    OffersDistinctKept(c, v);
    ObjectEntriesDistinct(ck, v, None);
    AssignmentsSymmetric(c, v, n);
    var kept := Assignments(ck, v, n, None);
    DroppedIsDropAll(Arr(kept), |kept|);
    assert kept[..|kept|] == kept;
  }

  lemma {:induction false} AssignmentsSymmetric(c: Config, v: Value, n: nat)
    requires !c.stopAtFirstLevel && !c.serializeNull
    requires v.Obj?
    requires DistinctNames(c, v)
    requires n <= |v.props|
    ensures Assignments(c, v, n, None) == DropAll(Assignments(c.(serializeNull := true), v, n, None))
    decreases v, 0, n
  {
    if n > 0 {
      var m := n - 1;
      AssignmentsSymmetric(c, v, m);
      AssignmentSymmetric(c, v, m);
      DropAllStep(c, c.(serializeNull := true), v, m);
    } else {
      AssignmentsZero(c, c.(serializeNull := true), v);
    }
  }

  lemma AssignmentsZero(c: Config, ck: Config, v: Value)
    requires v.Obj?
    ensures Assignments(c, v, 0, None) == DropAll(Assignments(ck, v, 0, None))
  {
    assert Assignments(ck, v, 0, None) == [];
  }


  /** The assignments of the first `n` properties under `c` are those
      under `ck` with the nulls dropped, if it holds for the first `n - 1`
      and for the last one. */
  lemma DropAllStep(c: Config, ck: Config, v: Value, m: nat)
    requires v.Obj? && m < |v.props|
    requires Assignments(c, v, m, None) == DropAll(Assignments(ck, v, m, None))
    requires Assignment(c, v, m, None) == DropAll(Assignment(ck, v, m, None))
    ensures Assignments(c, v, m + 1, None) == DropAll(Assignments(ck, v, m + 1, None))
  {
    AssignmentsStep(c, v, m, None);
    AssignmentsStep(ck, v, m, None);
    DropAllAppend(Assignments(ck, v, m, None), Assignment(ck, v, m, None));
  }

  lemma AssignmentSymmetric(c: Config, v: Value, i: nat)
    requires !c.stopAtFirstLevel && !c.serializeNull
    requires v.Obj?
    requires DistinctNames(c, v)
    requires i < |v.props|
    ensures Assignment(c, v, i, None) == DropAll(Assignment(c.(serializeNull := true), v, i, None))
    decreases v, 0, 0
  {
    match v.props[i].0
    case Public(name) =>
      var x := v.props[i].1;
      assert DistinctNames(c, x);
      NullSymmetry(c, x, false);
      KeptSymmetric(c, StrKey(name), name, x);
    case Hidden(name) =>
      var prop := CleanName(c.pattern, name);
      match FindMethod(v.methods, c.getPrefix + prop)
      case None =>
      case Some(j) =>
        var x := v.methods[j].result;
        assert DistinctNames(c, x);
        NullSymmetry(c, x, false);
        KeptSymmetric(c, StrKey(prop), name, x);
  }

  /** One offered value: dropped outright, or kept and then taken out as a
      null, comes to the same. */
  lemma KeptSymmetric(c: Config, k: Key, attrName: string, x: Value)
    requires !c.serializeNull
    requires Normalize(c, x, false, None) == DropNulls(Normalize(c.(serializeNull := true), x, false, None))
    ensures var p := Hooked(None, attrName, Normalize(c, x, false, None));
      (if p.Null? then [] else [(k, p)])
      == DropAll([(k, Hooked(None, attrName, Normalize(c.(serializeNull := true), x, false, None)))])
  {
    var pk := Normalize(c.(serializeNull := true), x, false, None);
    assert [(k, pk)][..0] == [];
  }

  /** A public `a` holding 1 and a hidden `_a` whose getter `geta` returns
      null: both publish `a`. */
  const CollidingObject := Obj(ClassInfo("C", []), [(Public("a"), Int(1)), (Hidden("_a"), Null)], [Method("geta", Null)])

  /** Both properties of the colliding object offer `a`, under any null
      setting. */
  lemma CollidingOffers(c: Config)
    requires c.pattern == StripNonAlnum && c.getPrefix == "get"
    ensures Offered(c, CollidingObject, 0) == Some(Offer("a", "a", Int(1)))
    ensures Offered(c, CollidingObject, 1) == Some(Offer("a", "_a", Null))
  {
    CleanedA();
    GetterA();
  }

  lemma CleanedA()
    ensures CleanName(StripNonAlnum, "_a") == "a"
  {
    assert "_a"[1..] == "a";
    assert "a"[1..] == [];
  }

  lemma GetterA()
    ensures FindMethod(CollidingObject.methods, "get" + "a") == Some(0)
  {
    assert "get" + "a" == "geta";
    assert Lower("geta") == "geta" by {
      assert "geta"[1..] == "eta" && "eta"[1..] == "ta" && "ta"[1..] == "a" && "a"[1..] == [];
    }
  }

  lemma CollidingAssignments(c: Config)
    requires c.pattern == StripNonAlnum && c.getPrefix == "get" && c.ignore == [] && !c.onlyString
    ensures Assignment(c, CollidingObject, 0, None) == [(StrKey("a"), Int(1))]
    ensures Assignment(c, CollidingObject, 1, None) == if c.serializeNull then [(StrKey("a"), Null)] else []
  {
    CollidingOffers(c);
    assert !KeyIn(StrKey("a"), c.ignore);
  }

  lemma CollisionKept()
    ensures Normalize(DefaultConfig, CollidingObject, true, None) == Arr([(StrKey("a"), Null)])
  {
    CollisionKeptEntries();
  }

  lemma CollisionKeptEntries()
    ensures ObjectEntries(DefaultConfig, CollidingObject, 2, None) == [(StrKey("a"), Null)]
  {
    var c, v := DefaultConfig, CollidingObject;
    CollidingAssignments(c);
    ObjectEntriesStep(c, v, 0, None);
    ObjectEntriesStep(c, v, 1, None);
    PutOverOne(StrKey("a"), Int(1), Null);
  }

  lemma PutOverOne(k: Key, x: Value, y: Value)
    ensures Put([(k, x)], k, y) == [(k, y)]
  {
    assert IndexOf([(k, x)], k) == Some(0);
  }

  lemma CollisionDropped()
    ensures Normalize(DefaultConfig.(serializeNull := false), CollidingObject, true, None) == Arr([(StrKey("a"), Int(1))])
  {
    var c, v := DefaultConfig.(serializeNull := false), CollidingObject;
    CollidingAssignments(c);
    ObjectEntriesStep(c, v, 0, None);
    ObjectEntriesStep(c, v, 1, None);
  }

  /** On a name collision the two null settings part ways: with nulls kept
      the getter's null overwrites 1; with nulls dropped 1 stays. Taking the
      nulls out of the first result does not give the second. */
  lemma NullFilterCollision()
    ensures DropNulls(Normalize(DefaultConfig, CollidingObject, true, None))
         != Normalize(DefaultConfig.(serializeNull := false), CollidingObject, true, None)
  {
    CollisionKept();
    CollisionDropped();
    assert DroppedEntries(Arr([(StrKey("a"), Null)]), 1) == [];
  }
}

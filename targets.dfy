/** The objects `ObjectCopy::copy` and `BinderObject::bind` write into, and
    the write rule the two share: a setter first, then a direct assignment,
    then a case-insensitive match against the class's declared properties. */
module Targets {
  import opened Text
  import opened PhpValue

  /** What the write rule asks of a target's class: its name, whether it is
      `stdClass`, its method names, and its public declared properties in
      declaration order (what `get_class_vars` lists from outside the class). */
  datatype TargetClass = TargetClass(name: string, isStdClass: bool, methods: seq<string>, vars: seq<string>)

  /** What can be observed of a target object: the properties visible from
      outside its class (public declared ones and dynamic ones, with their
      values, as `isset` sees them; protected and private properties are not
      in it), and the setter calls made on it, in order (a setter's body is
      user code). */
  datatype ObjState = ObjState(props: seq<(string, Value)>, setterCalls: seq<(string, Value)>)

  /** How a copy or a bind ends: normally, or with the exception PHP throws. */
  datatype Outcome = Done | TypeError | InvalidArgument

  /** A target object, updated in place. */
  class PhpObject {
    const cls: TargetClass
    var props: seq<(string, Value)>
    var setterCalls: seq<(string, Value)>

    function State(): ObjState
      reads this`props, this`setterCalls
    {
      ObjState(props, setterCalls)
    }

    constructor (cls: TargetClass, props: seq<(string, Value)>)
      ensures this.cls == cls
      ensures State() == ObjState(props, [])
    {
      this.cls := cls;
      this.props := props;
      setterCalls := [];
    }

    /** `$obj->{'set' . $name}($value)`: the call is recorded. */
    method CallSetter(name: string, value: Value)
      modifies this`setterCalls
      ensures State() == old(State()).(setterCalls := old(setterCalls) + [("set" + name, value)])
    {
      setterCalls := setterCalls + [("set" + name, value)];
    }

    /** `$obj->{$name} = $value`. */
    method Assign(name: string, value: Value)
      modifies this`props
      ensures State() == old(State()).(props := Put(old(props), name, value))
    {
      props := Put(props, name, value);
    }
  }

  /** A copy or bind target: an object, or any other PHP value. */
  datatype Target = NonObject(value: Value) | Object(obj: PhpObject)

  /** The objects a write to `t` may change. */
  function Frame(t: Target): set<object>
  {
    if t.Object? then {t.obj} else {}
  }

  /** `method_exists`, which compares method names case-insensitively. */
  predicate HasMethod(methods: seq<string>, name: string)
  {
    exists i :: 0 <= i < |methods| && Lower(methods[i]) == Lower(name)
  }

  /** `isset($obj->{$name})`: present and not null. */
  predicate IsSet(props: seq<(string, Value)>, name: string)
  {
    match Get(props, name)
    case Some(v) => !v.Null?
    case None => false
  }

  /** The table `strtolower($var) => $var` the loop over `get_class_vars`
      builds; a later property overwrites an earlier one with the same
      lower-case name. */
  function LowerTable(vars: seq<string>): map<string, string>
    decreases |vars|
  {
    if vars == [] then map[]
    else LowerTable(vars[..|vars| - 1])[Lower(vars[|vars| - 1]) := vars[|vars| - 1]]
  }

  /** The table finds exactly the lower-case names of declared properties. */
  lemma {:induction false} LowerTableKeys(vars: seq<string>, l: string)
    ensures l in LowerTable(vars) <==> exists i :: 0 <= i < |vars| && Lower(vars[i]) == l
    decreases |vars|
  {
    if vars != [] {
      var m := |vars| - 1;
      var pre := vars[..m];
      LowerTableKeys(pre, l);
      assert LowerTable(vars) == LowerTable(pre)[Lower(vars[m]) := vars[m]];
      assert forall i :: 0 <= i < m ==> pre[i] == vars[i];
      if Lower(vars[m]) != l {
        assert (exists i :: 0 <= i < m + 1 && Lower(vars[i]) == l) <==> (exists i :: 0 <= i < m && Lower(pre[i]) == l);
      }
    }
  }

  /** The index of the last declared property whose lower-case name is
      `l`, or -1 when there is none. */
  function LastMatch(vars: seq<string>, l: string): (r: int)
    ensures -1 <= r < |vars|
    ensures r >= 0 ==> Lower(vars[r]) == l
    ensures forall j :: r < j < |vars| ==> Lower(vars[j]) != l
    decreases |vars|
  {
    if vars == [] then -1
    else if Lower(vars[|vars| - 1]) == l then |vars| - 1
    else
      var r := LastMatch(vars[..|vars| - 1], l);
      assert forall j :: r < j < |vars| - 1 ==> vars[..|vars| - 1][j] == vars[j];
      r
  }

  lemma {:induction false} LowerTableLast(vars: seq<string>, l: string)
    ensures l in LowerTable(vars) ==> LastMatch(vars, l) >= 0 && LowerTable(vars)[l] == vars[LastMatch(vars, l)]
    decreases |vars|
  {
    if vars != [] {
      var m := |vars| - 1;
      var pre := vars[..m];
      LowerTableLast(pre, l);
      assert LowerTable(vars) == LowerTable(pre)[Lower(vars[m]) := vars[m]];
      if Lower(vars[m]) != l && l in LowerTable(pre) {
        assert LastMatch(vars, l) == LastMatch(pre, l);
        assert pre[LastMatch(pre, l)] == vars[LastMatch(pre, l)];
      }
    }
  }

  /** The table maps each lower-case name to the LAST property declared with
      that lower-case name. */
  lemma LowerTableLastWins(vars: seq<string>, l: string)
    ensures l in LowerTable(vars) ==>
      exists i :: (0 <= i < |vars| && LowerTable(vars)[l] == vars[i] && Lower(vars[i]) == l
                   && forall j :: i < j < |vars| ==> Lower(vars[j]) != l)
  {
    LowerTableLast(vars, l);
    if l in LowerTable(vars) {
      var i := LastMatch(vars, l);
      assert 0 <= i < |vars| && LowerTable(vars)[l] == vars[i] && Lower(vars[i]) == l;
    }
  }

  /** The loop that fills one class's entry of the lower-case cache. */
  method BuildLowerTable(vars: seq<string>) returns (table: map<string, string>)
    ensures table == LowerTable(vars)
  {
    table := map[];
    var i := 0;
    while i < |vars|
      invariant 0 <= i <= |vars|
      invariant table == LowerTable(vars[..i])
    {
      assert vars[..i + 1][..i] == vars[..i];
      table := table[Lower(vars[i]) := vars[i]];
      i := i + 1;
    }
    assert vars[..|vars|] == vars;
  }

  /** The cache of lower-case tables, keyed by class name, agrees with the
      class at hand (PHP class names identify classes). */
  predicate CacheAgrees(cache: map<string, map<string, string>>, cls: TargetClass)
  {
    cls.name in cache ==> cache[cls.name] == LowerTable(cls.vars)
  }

  /** One write of `value` under `name`: the setter when the class has one;
      otherwise a direct assignment when the property is set or the object is
      a `stdClass`; otherwise an assignment to the declared property with the
      same lower-case name; otherwise nothing. */
  function Write(cls: TargetClass, st: ObjState, name: string, value: Value): ObjState
  {
    if HasMethod(cls.methods, "set" + name) then st.(setterCalls := st.setterCalls + [("set" + name, value)])
    else if IsSet(st.props, name) || cls.isStdClass then st.(props := Put(st.props, name, value))
    else
      var table := LowerTable(cls.vars);
      if Lower(name) in table then st.(props := Put(st.props, table[Lower(name)], value))
      else st
  }

  /** The writes of a sequence of (name, value) pairs, in order. */
  function WriteAll(cls: TargetClass, st: ObjState, pairs: seq<(string, Value)>): ObjState
    decreases |pairs|
  {
    if pairs == [] then st
    else Write(cls, WriteAll(cls, st, pairs[..|pairs| - 1]), pairs[|pairs| - 1].0, pairs[|pairs| - 1].1)
  }

  /** Writing one more pair of a sequence: the state so far, then that write. */
  lemma WriteAllStep(cls: TargetClass, st: ObjState, pairs: seq<(string, Value)>, i: nat)
    requires i < |pairs|
    ensures WriteAll(cls, st, pairs[..i + 1]) == Write(cls, WriteAll(cls, st, pairs[..i]), pairs[i].0, pairs[i].1)
  {
    assert pairs[..i + 1][..i] == pairs[..i];
  }

  /** A class with a matching setter gets only the setter call. */
  lemma WriteSetterOnly(cls: TargetClass, st: ObjState, name: string, value: Value)
    requires HasMethod(cls.methods, "set" + name)
    ensures Write(cls, st, name, value).props == st.props
    ensures Write(cls, st, name, value).setterCalls == st.setterCalls + [("set" + name, value)]
  {
  }

  /** Without a setter, a set property or a `stdClass` target takes the value
      under the name itself, and no other property changes. */
  lemma WriteDirect(cls: TargetClass, st: ObjState, name: string, value: Value, other: string)
    requires !HasMethod(cls.methods, "set" + name)
    requires IsSet(st.props, name) || cls.isStdClass
    ensures Get(Write(cls, st, name, value).props, name) == Some(value)
    ensures other != name ==> Get(Write(cls, st, name, value).props, other) == Get(st.props, other)
    ensures Write(cls, st, name, value).setterCalls == st.setterCalls
  {
    if other != name {
      PutOther(st.props, name, value, other);
    }
  }

  /** Otherwise the value goes to the last declared property whose lower-case
      name equals the name's, when there is one. */
  lemma WriteCaseInsensitive(cls: TargetClass, st: ObjState, name: string, value: Value)
    requires !HasMethod(cls.methods, "set" + name)
    requires !IsSet(st.props, name) && !cls.isStdClass
    requires exists i :: 0 <= i < |cls.vars| && Lower(cls.vars[i]) == Lower(name)
    ensures exists i :: (0 <= i < |cls.vars| && Lower(cls.vars[i]) == Lower(name)
                         && (forall j :: i < j < |cls.vars| ==> Lower(cls.vars[j]) != Lower(name))
                         && Get(Write(cls, st, name, value).props, cls.vars[i]) == Some(value))
    ensures Write(cls, st, name, value).setterCalls == st.setterCalls
  {
    LowerTableKeys(cls.vars, Lower(name));
    LowerTableLastWins(cls.vars, Lower(name));
  }

  /** A name with no setter, no set property, no `stdClass` target and no
      case-insensitive match is dropped. */
  lemma WriteDropped(cls: TargetClass, st: ObjState, name: string, value: Value)
    requires !HasMethod(cls.methods, "set" + name)
    requires !IsSet(st.props, name) && !cls.isStdClass
    requires forall i :: 0 <= i < |cls.vars| ==> Lower(cls.vars[i]) != Lower(name)
    ensures Write(cls, st, name, value) == st
  {
    LowerTableKeys(cls.vars, Lower(name));
  }

  /** Into a `stdClass` (which has no methods) every name is written, and
      when several pairs carry the same name the last one wins. */
  lemma {:induction false} StdClassLastWins(cls: TargetClass, st: ObjState, pairs: seq<(string, Value)>, k: nat)
    requires cls.isStdClass && cls.methods == []
    requires k < |pairs|
    requires forall j :: k < j < |pairs| ==> pairs[j].0 != pairs[k].0
    ensures Get(WriteAll(cls, st, pairs).props, pairs[k].0) == Some(pairs[k].1)
    decreases |pairs|
  {
    var pre := pairs[..|pairs| - 1];
    var last := pairs[|pairs| - 1];
    if k < |pairs| - 1 {
      assert forall j :: 0 <= j < |pre| ==> pre[j] == pairs[j];
      StdClassLastWins(cls, st, pre, k);
      PutOther(WriteAll(cls, st, pre).props, last.0, last.1, pairs[k].0);
    }
  }

  /** A name no pair carries keeps its value, and a `stdClass` sees no
      setter call. */
  lemma {:induction false} StdClassUntouched(cls: TargetClass, st: ObjState, pairs: seq<(string, Value)>, name: string)
    requires cls.isStdClass && cls.methods == []
    requires forall k :: 0 <= k < |pairs| ==> pairs[k].0 != name
    ensures Get(WriteAll(cls, st, pairs).props, name) == Get(st.props, name)
    ensures WriteAll(cls, st, pairs).setterCalls == st.setterCalls
    decreases |pairs|
  {
    if pairs != [] {
      var pre := pairs[..|pairs| - 1];
      var last := pairs[|pairs| - 1];
      assert forall j :: 0 <= j < |pre| ==> pre[j] == pairs[j];
      StdClassUntouched(cls, st, pre, name);
      PutOther(WriteAll(cls, st, pre).props, last.0, last.1, name);
    }
  }
}

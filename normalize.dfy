/** What `Serialize` makes of a value: the recursive normalisation into
    ordered arrays, stated as functions that the imperative serializer is
    proved against. */
module Normalization {
  import opened Text
  import opened PhpValue

  /** The `[search, replace]` pair applied to a hidden property's bare name:
      the default `/([^A-Za-z0-9])/` with an empty replacement, or any other
      rewrite a caller installs. */
  datatype NamePattern = StripNonAlnum | Rewrite(replace: string -> string)

  /** The attribute callback of `parseAttributes`: the attribute instances
      reflection finds on a property (already filtered by class and flags),
      and the closure folded over them. */
  datatype AttributeHook = AttributeHook(attributesOf: string -> seq<Value>, apply: (Option<Value>, Value) -> Value)

  /** The serializer's settings. */
  datatype Config = Config(
    pattern: NamePattern,
    getPrefix: string,
    stopAtFirstLevel: bool,
    onlyString: bool,
    doNotParse: seq<string>,
    serializeNull: bool,
    ignore: seq<Key>)

  /** The settings a fresh serializer starts with. */
  const DefaultConfig := Config(StripNonAlnum, "get", false, false, [], true, [])

  /** `preg_replace('/([^A-Za-z0-9])/', '', $s)`. */
  function KeepAlnum(s: string): (r: string)
    ensures forall i :: 0 <= i < |r| ==> IsAlnum(r[i])
    ensures |r| <= |s|
    ensures (forall i :: 0 <= i < |s| ==> IsAlnum(s[i])) ==> r == s
  {
    if s == [] then [] else (if IsAlnum(s[0]) then [s[0]] else []) + KeepAlnum(s[1..])
  }

  /** The rewrite works character by character: what stays of `a` comes
      before what stays of `b`, and one character stays exactly when it is a
      letter or a digit. Together these say that every letter and digit is
      kept, in order. */
  lemma {:induction false} KeepAlnumAppend(a: string, b: string)
    ensures KeepAlnum(a + b) == KeepAlnum(a) + KeepAlnum(b)
  {
    if a == [] {
      assert a + b == b;
    } else {
      assert (a + b)[0] == a[0];
      assert (a + b)[1..] == a[1..] + b;
      KeepAlnumAppend(a[1..], b);
    }
  }

  lemma KeepAlnumChar(c: char)
    ensures KeepAlnum([c]) == if IsAlnum(c) then [c] else []
  {
    assert [c][1..] == [];
  }

  /** The property name a hidden property is published under. */
  function CleanName(p: NamePattern, name: string): string
  {
    match p
    case StripNonAlnum => KeepAlnum(name)
    case Rewrite(f) => f(name)
  }

  /** The closure applied to `v` once per attribute, in order. */
  function FoldAttributes(apply: (Option<Value>, Value) -> Value, attrs: seq<Value>, v: Value): Value
  {
    if attrs == [] then v else FoldAttributes(apply, attrs[1..], apply(Some(attrs[0]), v))
  }

  /** The value after the attribute callback: unchanged without one; passed
      with `null` when the property has no matching attribute. */
  function Hooked(hook: Option<AttributeHook>, name: string, v: Value): (r: Value)
    ensures hook.None? ==> r == v
  {
    match hook
    case None => v
    case Some(h) =>
      var attrs := h.attributesOf(name);
      if |attrs| == 0 then h.apply(None, v) else FoldAttributes(h.apply, attrs, v)
  }

  /** Some class of the do-not-parse list is the object's class or an ancestor. */
  predicate Unparsed(c: Config, cls: ClassInfo)
  {
    exists k :: 0 <= k < |c.doNotParse| && IsA(cls, c.doNotParse[k])
  }

  /** The value `parseProperties` returns. `top` says that the call is the one
      that reset the level counter to 1; every other call runs at a level of 2
      or more, where stop-at-first-level returns the value untouched. The
      attribute hook reaches only the object the top call is made on. */
  function Normalize(c: Config, v: Value, top: bool, hook: Option<AttributeHook>): Value
    decreases v, 1
  {
    if c.stopAtFirstLevel && !top then v
    else match v
      case Arr(es) => Arr(ArrayEntries(c, v, |es|))
      case Std(es) => Arr(ArrayEntries(c, v, |es|))
      case Obj(cls, props, _) =>
        if Unparsed(c, cls) then v else Arr(ObjectEntries(c, v, |props|, hook))
      case _ => if c.onlyString then Str(ScalarText(v)) else v
  }

  /** The result of `parseArray` after its first `n` entries. */
  function ArrayEntries(c: Config, v: Value, n: nat): seq<(Key, Value)>
    requires v.Arr? || v.Std?
    requires n <= |v.entries|
    decreases v, 0, n
  {
    if n == 0 then []
    else
      var acc := ArrayEntries(c, v, n - 1);
      var k := v.entries[n - 1].0;
      if KeyIn(k, c.ignore) then acc
      else
        var p := Normalize(c, v.entries[n - 1].1, false, None);
        if p.Null? && !c.serializeNull then Remove(Put(acc, k, p), k) else Put(acc, k, p)
  }

  /** One property's contribution: dropped when null is not kept, otherwise
      assigned under its name. */
  function Keep(c: Config, acc: seq<(Key, Value)>, name: string, p: Value): seq<(Key, Value)>
  {
    if p.Null? && !c.serializeNull then acc else Put(acc, StrKey(name), p)
  }

  /** The result of `parseObject` after its first `n` properties. A hidden
      property is published under its cleaned name, and only through its
      getter: without one it is skipped. */
  function ObjectEntries(c: Config, v: Value, n: nat, hook: Option<AttributeHook>): seq<(Key, Value)>
    requires v.Obj?
    requires n <= |v.props|
    decreases v, 0, n
  {
    if n == 0 then []
    else
      var acc := ObjectEntries(c, v, n - 1, hook);
      match v.props[n - 1].0
      case Public(name) =>
        if KeyIn(StrKey(name), c.ignore) then acc
        else Keep(c, acc, name, Hooked(hook, name, Normalize(c, v.props[n - 1].1, false, None)))
      case Hidden(name) =>
        var prop := CleanName(c.pattern, name);
        match FindMethod(v.methods, c.getPrefix + prop)
        case None => acc
        case Some(j) =>
          if KeyIn(StrKey(prop), c.ignore) then acc
          else Keep(c, acc, prop, Hooked(hook, name, Normalize(c, v.methods[j].result, false, None)))
  }
}
